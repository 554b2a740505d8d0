/** Removing self-corrections, repeated confirmations and redundant constraint tails
    (runtime/backend.rs).  Every loop rewrites the text while a marker is found. */
module SelfCorrection {
  import opened Sequences
  import opened Text

  predicate IsTokenCharacter(c: char) {
    IsAsciiAlphanumeric(c) || c in "_-./:+#@=<>%±"
  }

  predicate HasAlphanumeric(s: string) { exists i :: 0 <= i < |s| && IsAsciiAlphanumeric(s[i]) }

  predicate EndsWith(s: string, suffix: string) {
    |suffix| <= |s| && s[|s| - |suffix|..] == suffix
  }

  const PARTICLES: seq<string> := ["も", "は", "を", "が", "に", "で", "と"]

  /** The length of the text without the first particle of the list that ends it. */
  function WithoutParticle(s: string, particles: seq<string>): (n: nat)
    ensures n <= |s|
  {
    if particles == [] then |s|
    else if EndsWith(s, particles[0]) then |s| - |particles[0]|
    else WithoutParticle(s, particles[1..])
  }

  /** Where the token that ends the text starts, if its last word is one. */
  function TrailingCorrectionTokenStart(value: string): (r: Option<nat>)
    ensures r.Some? ==> r.value < |TrimEnd(value)| <= |value| && IsTokenCharacter(value[r.value])
  {
    var trimmed := TrimEnd(value);
    var prefix := trimmed[..WithoutParticle(trimmed, PARTICLES)];
    var start := TrailingRunStart(IsTokenCharacter, prefix);
    if start < |prefix| && HasAlphanumeric(prefix[start..]) then
      assert prefix[start] == value[start];
      Some(start)
    else None
  }

  /** Where the token that starts the text ends, if it starts with one. */
  function LeadingCorrectionTokenEnd(value: string): (r: Option<nat>)
    ensures r.Some? ==> 0 < r.value <= |value|
  {
    var end := LeadingRun(IsTokenCharacter, value);
    if end > 0 && HasAlphanumeric(value[..end]) then Some(end) else None
  }

  // ---------- Explicit self-corrections ----------

  const CORRECTION_MARKERS: seq<string> := [
    "と書きましたが正しくは", "と書いたけど正しくは", "、いや最終的に", "、いや正しくは", "、いや", "、じゃなくて",
    "じゃなくて", "、正しくは"
  ]
  const DISCOURSE: seq<string> := ["たぶん", "おそらく", "最初", "当初"]

  /** Drops each discourse word in turn where it ends the text. */
  function WithoutDiscourse(retained: string, words: seq<string>): (r: string)
    ensures r <= retained
    decreases |words|
  {
    if words == [] then retained
    else if EndsWith(retained, words[0]) then
      WithoutDiscourse(TrimEnd(retained[..|retained| - |words[0]|]), words[1..])
    else WithoutDiscourse(retained, words[1..])
  }

  /** What one correction at `start` leaves: the text before the withdrawn token and the text after
      the marker.  None when there is no token to withdraw or none to put in its place. */
  function Corrected(s: string, marker: string, start: nat): (r: Option<string>)
    requires Occurs(s, marker, start)
  {
    var before := s[..start];
    var after := TrimStart(s[start + |marker|..]);
    match TrailingCorrectionTokenStart(before)
    case None => None
    case Some(withdrawn) =>
      if LeadingCorrectionTokenEnd(after).None? then None
      else Some(WithoutDiscourse(TrimEnd(before[..withdrawn]), DISCOURSE) + after)
  }

  lemma TrimEndSplits(s: string)
    ensures TrimEnd(s) <= s && Blank(s[|TrimEnd(s)|..])
    ensures TrimEnd(s) != [] ==> !IsWhitespace(TrimEnd(s)[|TrimEnd(s)| - 1])
  {
  }

  lemma OccursSplits(s: string, marker: string, start: nat)
    requires Occurs(s, marker, start)
    ensures start + |marker| <= |s| && s == s[..start] + (marker + s[start + |marker|..])
  {
  }

  lemma CorrectedNeeds(s: string, marker: string, start: nat)
    requires Occurs(s, marker, start) && Corrected(s, marker, start).Some?
    ensures TrailingCorrectionTokenStart(s[..start]).Some?
    ensures LeadingCorrectionTokenEnd(TrimStart(s[start + |marker|..])).Some?
  {
    hide TrailingCorrectionTokenStart, LeadingCorrectionTokenEnd, TrimStart, TrimEnd, WithoutDiscourse;
  }

  lemma CorrectedOf(s: string, marker: string, start: nat, withdrawn: nat, after: string)
    requires Occurs(s, marker, start) && TrimStart(s[start + |marker|..]) == after
    requires TrailingCorrectionTokenStart(s[..start]) == Some(withdrawn) && LeadingCorrectionTokenEnd(after).Some?
    ensures Corrected(s, marker, start) == Some(WithoutDiscourse(TrimEnd(s[..start][..withdrawn]), DISCOURSE) + after)
  {
    hide TrimEnd, TrimStart, WithoutDiscourse;
  }

  lemma TrimStartSplits(s: string)
    ensures |TrimStart(s)| <= |s| && TrimStart(s) == s[|s| - |TrimStart(s)|..]
  {
  }

  /** A correction only deletes, at least the withdrawn token and the marker. */
  lemma CorrectionDeletes(s: string, marker: string, start: nat)
    requires Occurs(s, marker, start) && Corrected(s, marker, start).Some?
    ensures var r := Corrected(s, marker, start).value;
      |r| < |s| && |r| + |marker| < |s| && IsSubsequence(r, s)
  {
    hide *;
    OccursSplits(s, marker, start);
    CorrectedNeeds(s, marker, start);
    var rest := s[start + |marker|..];
    var withdrawn := TrailingCorrectionTokenStart(s[..start]).value;
    CorrectedOf(s, marker, start, withdrawn, TrimStart(rest));
    TrimStartSplits(rest);
    TrimEndSplits(s[..start][..withdrawn]);
    var kept := WithoutDiscourse(TrimEnd(s[..start][..withdrawn]), DISCOURSE);
    var n, j := |kept|, |s| - |TrimStart(rest)|;
    assert kept == s[..start][..withdrawn][..n] == s[..n];
    assert TrimStart(rest) == s[j..];
    CutIsSubsequence(s, n, j);
  }

  /** Corrections by one marker, made where it first occurs, until one cannot be made there. */
  function CorrectedBy(s: string, marker: string): string
    decreases |s|
  {
    match Find(s, marker)
    case None => s
    case Some(start) =>
      match Corrected(s, marker, start)
      case None => s
      case Some(r) =>
        CorrectionDeletes(s, marker, start);
        CorrectedBy(r, marker)
  }

  function CorrectedByAll(s: string, markers: seq<string>): string
    decreases |markers|
  {
    if markers == [] then s else CorrectedByAll(CorrectedBy(s, markers[0]), markers[1..])
  }

  /** Corrections only delete, and afterwards the first marker that is left cannot be used. */
  lemma {:induction false} CorrectedByDeletes(s: string, marker: string)
    ensures var r := CorrectedBy(s, marker);
      && IsSubsequence(r, s)
      && (r != s ==> |r| < |s| && Find(s, marker).Some?)
      && (Find(r, marker).Some? ==> Corrected(r, marker, Find(r, marker).value).None?)
    decreases |s|
  {
    hide IsSubsequence, Corrected;
    SubsequenceOfSelf(s);
    var found := Find(s, marker);
    if found.Some? && Corrected(s, marker, found.value).Some? {
      var r := Corrected(s, marker, found.value).value;
      CorrectionDeletes(s, marker, found.value);
      CorrectedByDeletes(r, marker);
      SubsequenceIsTransitive(CorrectedBy(r, marker), r, s);
    }
  }

  /** All markers in turn delete too, and nothing happens to a text without them. */
  lemma {:induction false} CorrectedByAllDeletes(s: string, markers: seq<string>)
    ensures IsSubsequence(CorrectedByAll(s, markers), s)
    ensures (forall i :: 0 <= i < |markers| ==> Find(s, markers[i]).None?) ==> CorrectedByAll(s, markers) == s
    decreases |markers|
  {
    hide IsSubsequence, CorrectedBy;
    SubsequenceOfSelf(s);
    if markers != [] {
      var r := CorrectedBy(s, markers[0]);
      CorrectedByDeletes(s, markers[0]);
      CorrectedByAllDeletes(r, markers[1..]);
      SubsequenceIsTransitive(CorrectedByAll(r, markers[1..]), r, s);
    }
  }

  /** The loop for one marker. */
  method RemoveCorrections(input: string, marker: string) returns (normalized: string)
    ensures normalized == CorrectedBy(input, marker)
  {
    normalized := input;
    var found := Find(normalized, marker);
    while found.Some?
      invariant found == Find(normalized, marker)
      invariant CorrectedBy(input, marker) == CorrectedBy(normalized, marker)
      decreases |normalized|
    {
      var start := found.value;
      var before := normalized[..start];
      var after := TrimStart(normalized[start + |marker|..]);
      var oldStart := TrailingCorrectionTokenStart(before);
      if oldStart.None? || LeadingCorrectionTokenEnd(after).None? {
        return;
      }
      CorrectionDeletes(normalized, marker, start);
      normalized := WithoutDiscourse(TrimEnd(before[..oldStart.value]), DISCOURSE) + after;
      found := Find(normalized, marker);
    }
  }

  method NormalizeExplicitAsciiSelfCorrections(input: string) returns (normalized: string)
    ensures normalized == CorrectedByAll(input, CORRECTION_MARKERS)
  {
    normalized := input;
    var markers := CORRECTION_MARKERS;
    hide CorrectedBy;
    for i := 0 to |markers|
      invariant CorrectedByAll(input, markers) == CorrectedByAll(normalized, markers[i..])
    {
      assert markers[i..][0] == markers[i] && markers[i..][1..] == markers[i + 1..];
      normalized := RemoveCorrections(normalized, markers[i]);
    }
  }

  // ---------- Which token survives, written out ----------

  /** A digit, an ASCII letter or one of thirteen signs. */
  predicate IsWordCharacter(c: char) {
    || 48 <= c as int <= 57 || 65 <= c as int <= 90 || 97 <= c as int <= 122
    || c == '_' || c == '-' || c == '.' || c == '/' || c == ':' || c == '+' || c == '#' || c == '@' || c == '='
    || c == '<' || c == '>' || c == '%' || c == '±'
  }

  /** A word with a digit or a letter in it. */
  ghost predicate IsToken(s: string) {
    && (forall i :: 0 <= i < |s| ==> IsWordCharacter(s[i]))
    && exists i :: 0 <= i < |s| && (48 <= s[i] as int <= 57 || 65 <= s[i] as int <= 90 || 97 <= s[i] as int <= 122)
  }

  /** Nothing, or one of seven particles. */
  predicate IsParticle(s: string) {
    s == "" || (|s| == 1 && s[0] in {'も', 'は', 'を', 'が', 'に', 'で', 'と'})
  }

  /** Nothing, or the word with blanks behind it. */
  ghost predicate IsOptional(piece: string, word: string) {
    piece == "" || (word <= piece && Blank(piece[|word|..]))
  }

  /** A correction from left to right: `head`, discourse words, the token that is withdrawn, a particle,
      blanks, the marker, blanks, the token that replaces the first, and `tail`. */
  datatype Correction = Correction(
    head: string, initially: string, atFirst: string, presumably: string, perhaps: string,
    withdrawn: string, particle: string, blanks: string, marker: string, space: string, correct: string, tail: string)
  {
    function Discourse(): string { head + initially + atFirst + presumably + perhaps }

    function Before(): string { Discourse() + withdrawn + particle + blanks }

    function After(): string { space + (correct + tail) }

    function Text(): string { Before() + (marker + After()) }

    /** The discourse words that follow `head` are all there are. */
    ghost predicate EndsHead() {
      && (initially == "" ==> !EndsWith(TrimEnd(head), "当初"))
      && (initially == "" && atFirst == "" ==> !EndsWith(TrimEnd(head), "最初"))
      && (initially == "" && atFirst == "" && presumably == "" ==> !EndsWith(TrimEnd(head), "おそらく"))
      && (initially == "" && atFirst == "" && presumably == "" && perhaps == "" ==> !EndsWith(TrimEnd(head), "たぶん"))
    }

    ghost predicate Valid() {
      && IsOptional(initially, "当初") && IsOptional(atFirst, "最初")
      && IsOptional(presumably, "おそらく") && IsOptional(perhaps, "たぶん")
      && EndsHead()
      && (Discourse() == "" || !IsWordCharacter(Discourse()[|Discourse()| - 1]))
      && IsToken(withdrawn) && IsParticle(particle)
      && Blank(blanks) && Blank(space) && IsToken(correct)
    }
  }

  lemma WordCharacters(c: char)
    ensures IsWordCharacter(c) <==> IsTokenCharacter(c)
    ensures IsWordCharacter(c) ==> !IsWhitespace(c) && !IsParticle([c])
  {
    assert c in "_-./:+#@=<>%±" <==>
      || c == '_' || c == '-' || c == '.' || c == '/' || c == ':' || c == '+' || c == '#' || c == '@' || c == '='
      || c == '<' || c == '>' || c == '%' || c == '±';
  }

  lemma TokenIsToken(s: string)
    requires IsToken(s)
    ensures s != [] && HasAlphanumeric(s) && forall i :: 0 <= i < |s| ==> IsTokenCharacter(s[i]) && !IsWhitespace(s[i])
  {
    forall i | 0 <= i < |s| ensures IsTokenCharacter(s[i]) && !IsWhitespace(s[i]) {
      WordCharacters(s[i]);
    }
  }

  /** The discourse pieces from right to left, in the order in which the words are looked for. */
  function Front(head: string, pieces: seq<string>): string
    decreases |pieces|
  {
    if pieces == [] then head else Front(head, pieces[1..]) + pieces[0]
  }

  ghost predicate Fits(head: string, pieces: seq<string>, words: seq<string>)
    requires |pieces| == |words|
    decreases |words|
  {
    words != [] ==>
      && IsOptional(pieces[0], words[0]) && words[0] != [] && !IsWhitespace(words[0][|words[0]| - 1])
      && (pieces[0] == "" ==> !EndsWith(TrimEnd(Front(head, pieces[1..])), words[0]))
      && Fits(head, pieces[1..], words[1..])
  }

  lemma PieceIsDropped(inner: string, piece: string, word: string)
    requires IsOptional(piece, word) && word != [] && !IsWhitespace(word[|word| - 1])
    requires piece == "" ==> !EndsWith(TrimEnd(inner), word)
    ensures var s := TrimEnd(inner + piece);
      if EndsWith(s, word) then TrimEnd(s[..|s| - |word|]) == TrimEnd(inner) else s == TrimEnd(inner)
  {
    if piece == "" {
      assert inner + piece == inner;
    } else {
      var s := inner + word;
      assert s + piece[|word|..] == inner + piece;
      TrimEndOfBlanks(s, piece[|word|..]);
      assert s[|s| - 1] == word[|word| - 1];
      TrimEndOfSolid(s);
      assert s[|inner|..] == word && s[..|inner|] == inner;
    }
  }

  lemma DiscourseStep(retained: string, words: seq<string>)
    requires words != []
    ensures WithoutDiscourse(retained, words) ==
      if EndsWith(retained, words[0]) then WithoutDiscourse(TrimEnd(retained[..|retained| - |words[0]|]), words[1..])
      else WithoutDiscourse(retained, words[1..])
  {
  }

  lemma {:induction false} PiecesAreDropped(head: string, pieces: seq<string>, words: seq<string>)
    requires |pieces| == |words| && Fits(head, pieces, words)
    ensures WithoutDiscourse(TrimEnd(Front(head, pieces)), words) == TrimEnd(head)
    decreases |words|
  {
    hide *;
    if words != [] {
      var inner := Front(head, pieces[1..]);
      FirstPiece(head, pieces, words);
      PieceIsDropped(inner, pieces[0], words[0]);
      PiecesAreDropped(head, pieces[1..], words[1..]);
      DiscourseStep(TrimEnd(inner + pieces[0]), words);
    } else {
      NoPieces(head, pieces);
    }
  }

  lemma NoPieces(head: string, pieces: seq<string>)
    requires pieces == []
    ensures Front(head, pieces) == head && WithoutDiscourse(TrimEnd(head), []) == TrimEnd(head)
  {
  }

  lemma FirstPiece(head: string, pieces: seq<string>, words: seq<string>)
    requires |pieces| == |words| && words != [] && Fits(head, pieces, words)
    ensures Front(head, pieces) == Front(head, pieces[1..]) + pieces[0] && Fits(head, pieces[1..], words[1..])
    ensures IsOptional(pieces[0], words[0]) && words[0] != [] && !IsWhitespace(words[0][|words[0]| - 1])
    ensures pieces[0] == "" ==> !EndsWith(TrimEnd(Front(head, pieces[1..])), words[0])
  {
  }

  lemma LastTwo(s: string, suffix: string)
    requires EndsWith(s, suffix) && |suffix| >= 2
    ensures s[|s| - 2] == suffix[|suffix| - 2] && s[|s| - 1] == suffix[|suffix| - 1]
  {
    var end := s[|s| - |suffix|..];
    assert end[|suffix| - 1] == s[|s| - 1] && end[|suffix| - 2] == s[|s| - 2];
  }

  /** Behind a discourse word no other one ends. */
  lemma OtherWordEnds(inner: string, piece: string, word: string, other: string)
    requires piece != "" && IsOptional(piece, word)
    requires word in {"当初", "最初", "おそらく"} && other in {"最初", "おそらく", "たぶん"} && word != other
    ensures !EndsWith(TrimEnd(inner + piece), other)
  {
    var s := inner + word;
    var n := |word|;
    assert !IsWhitespace(word[n - 1]) && s[|s| - 1] == word[n - 1] && s[|s| - 2] == word[n - 2];
    assert s + piece[n..] == inner + piece;
    TrimEndOfBlanks(s, piece[n..]);
    TrimEndOfSolid(s);
    assert word[n - 1] != other[|other| - 1] || word[n - 2] != other[|other| - 2];
    hide EndsWith, TrimEnd, IsOptional;
    if EndsWith(s, other) {
      LastTwo(s, other);
    }
  }

  lemma DiscourseFits(c: Correction)
    requires c.Valid()
    ensures Fits(c.head, [c.perhaps, c.presumably, c.atFirst, c.initially], DISCOURSE)
    ensures Front(c.head, [c.perhaps, c.presumably, c.atFirst, c.initially]) == c.Discourse()
  {
    hide IsOptional, EndsWith, TrimEnd, IsToken;
    var h1 := c.head + c.initially;
    var h2, h3 := h1 + c.atFirst, h1 + c.atFirst + c.presumably;
    var pieces := [c.perhaps, c.presumably, c.atFirst, c.initially];
    assert pieces[1..] == [c.presumably, c.atFirst, c.initially];
    assert pieces[1..][1..] == [c.atFirst, c.initially];
    assert pieces[1..][1..][1..] == [c.initially];
    assert pieces[1..][1..][1..][1..] == [];
    assert Front(c.head, [c.initially]) == h1;
    assert Front(c.head, [c.atFirst, c.initially]) == h2;
    assert Front(c.head, [c.presumably, c.atFirst, c.initially]) == h3;
    NoWordEnds(c);
    assert DISCOURSE[1..] == ["おそらく", "最初", "当初"] && DISCOURSE[1..][1..] == ["最初", "当初"];
    assert DISCOURSE[1..][1..][1..] == ["当初"] && DISCOURSE[1..][1..][1..][1..] == [];
    assert Fits(c.head, [c.initially], ["当初"]);
    assert Fits(c.head, [c.atFirst, c.initially], ["最初", "当初"]);
    assert Fits(c.head, [c.presumably, c.atFirst, c.initially], ["おそらく", "最初", "当初"]);
  }

  /** Where a discourse word is left out, the text in front of its place does not end with it. */
  lemma NoWordEnds(c: Correction)
    requires c.Valid()
    ensures c.initially == "" ==> !EndsWith(TrimEnd(c.head), "当初")
    ensures c.atFirst == "" ==> !EndsWith(TrimEnd(c.head + c.initially), "最初")
    ensures c.presumably == "" ==> !EndsWith(TrimEnd(c.head + c.initially + c.atFirst), "おそらく")
    ensures c.perhaps == "" ==> !EndsWith(TrimEnd(c.head + c.initially + c.atFirst + c.presumably), "たぶん")
  {
    hide IsOptional, EndsWith, TrimEnd, IsToken;
    var h1 := c.head + c.initially;
    var h2 := h1 + c.atFirst;
    if c.initially == "" {
      assert h1 == c.head;
    } else {
      OtherWordEnds(c.head, c.initially, "当初", "最初");
      OtherWordEnds(c.head, c.initially, "当初", "おそらく");
      OtherWordEnds(c.head, c.initially, "当初", "たぶん");
    }
    if c.atFirst == "" {
      assert h2 == h1;
    } else {
      OtherWordEnds(h1, c.atFirst, "最初", "おそらく");
      OtherWordEnds(h1, c.atFirst, "最初", "たぶん");
    }
    if c.presumably == "" {
      assert h2 + c.presumably == h2;
    } else {
      OtherWordEnds(h2, c.presumably, "おそらく", "たぶん");
    }
  }

  lemma {:induction false} LastIsDropped(s: string, particles: seq<string>)
    requires s != [] && forall i :: 0 <= i < |particles| ==> |particles[i]| == 1
    ensures WithoutParticle(s, particles) == if [s[|s| - 1]] in particles then |s| - 1 else |s|
  {
    if particles != [] {
      assert s[|s| - 1..] == [s[|s| - 1]];
      LastIsDropped(s, particles[1..]);
      assert particles == [particles[0]] + particles[1..];
    }
  }

  lemma ParticlesInList(c: char)
    ensures [c] in PARTICLES <==> IsParticle([c])
    ensures forall i :: 0 <= i < |PARTICLES| ==> |PARTICLES[i]| == 1
  {
    assert PARTICLES[0] == ['も'] && PARTICLES[1] == ['は'] && PARTICLES[2] == ['を'] && PARTICLES[3] == ['が'];
    assert PARTICLES[4] == ['に'] && PARTICLES[5] == ['で'] && PARTICLES[6] == ['と'];
    if [c] in PARTICLES {
      var i :| 0 <= i < 7 && PARTICLES[i] == [c];
      assert c == PARTICLES[i][0];
    }
  }

  lemma ParticleIsDropped(s: string)
    requires s != []
    ensures WithoutParticle(s, PARTICLES) == if IsParticle([s[|s| - 1]]) then |s| - 1 else |s|
  {
    hide *;
    ParticlesInList(s[|s| - 1]);
    LastIsDropped(s, PARTICLES);
  }

  lemma TokenBeforeParticle(prefix: string, particle: string)
    requires prefix != "" && IsWordCharacter(prefix[|prefix| - 1]) && IsParticle(particle)
    ensures TrimEnd(prefix + particle) == prefix + particle
    ensures WithoutParticle(prefix + particle, PARTICLES) == |prefix|
  {
    var s := prefix + particle;
    assert s[|s| - 1] == if particle == "" then prefix[|prefix| - 1] else particle[0];
    WordCharacters(prefix[|prefix| - 1]);
    assert particle != "" ==> particle == [particle[0]];
    ParticleIsDropped(s);
    TrimEndOfSolid(s);
    hide TrimEnd, WithoutParticle, IsWordCharacter;
  }

  lemma TrailingTokenOf(value: string, prefix: string)
    requires prefix == TrimEnd(value)[..WithoutParticle(TrimEnd(value), PARTICLES)]
    ensures var start := TrailingRunStart(IsTokenCharacter, prefix);
      TrailingCorrectionTokenStart(value) ==
        if start < |prefix| && HasAlphanumeric(prefix[start..]) then Some(start) else None
  {
    hide TrimEnd, WithoutParticle, PARTICLES, TrailingRunStart, HasAlphanumeric, IsTokenCharacter;
  }

  /** The withdrawn token is found where it starts. */
  lemma WithdrawnIsFound(front: string, token: string, particle: string, blanks: string)
    requires front == "" || !IsWordCharacter(front[|front| - 1])
    requires IsToken(token) && IsParticle(particle) && Blank(blanks)
    ensures TrailingCorrectionTokenStart(front + token + particle + blanks) == Some(|front|)
  {
    hide *;
    var prefix := front + token;
    TokenEnds(front, token);
    WithdrawnRun(front, token);
    TrimEndOfBlanks(prefix + particle, blanks);
    TokenBeforeParticle(prefix, particle);
    assert (prefix + particle)[..|prefix|] == prefix;
    TrailingTokenOf(front + token + particle + blanks, prefix);
  }

  lemma TokenEnds(front: string, token: string)
    requires IsToken(token)
    ensures front + token != "" && IsWordCharacter((front + token)[|front| + |token| - 1])
  {
    assert (front + token)[|front| + |token| - 1] == token[|token| - 1];
  }

  lemma WithdrawnRun(front: string, token: string)
    requires front == "" || !IsWordCharacter(front[|front| - 1])
    requires IsToken(token)
    ensures var prefix := front + token;
      TrailingRunStart(IsTokenCharacter, prefix) == |front| && prefix[|front|..] == token && HasAlphanumeric(token)
  {
    TokenIsToken(token);
    var prefix := front + token;
    assert forall i :: |front| <= i < |prefix| ==> prefix[i] == token[i - |front|];
    if front != "" {
      WordCharacters(front[|front| - 1]);
      assert prefix[|front| - 1] == front[|front| - 1];
    }
    hide IsTokenCharacter, IsWordCharacter, HasAlphanumeric, IsToken;
  }

  /** Behind the marker the replacing token starts the text. */
  lemma ReplacementIsFound(space: string, token: string, tail: string)
    requires Blank(space) && IsToken(token)
    ensures TrimStart(space + (token + tail)) == token + tail && LeadingCorrectionTokenEnd(token + tail).Some?
  {
    var after := token + tail;
    TokenIsToken(token);
    assert forall i :: 0 <= i < |token| ==> after[i] == token[i];
    TrimStartOfBlanks(space, after);
    hide IsTokenCharacter, IsAsciiAlphanumeric;
    var n := LeadingRun(IsTokenCharacter, after);
    var i :| 0 <= i < |token| && IsAsciiAlphanumeric(token[i]);
    assert n >= |token| && after[..n][i] == token[i];
  }

  lemma TextSplits(c: Correction)
    ensures |c.Before()| <= |c.Text()|
    ensures var n := |c.Before()|;
      && Occurs(c.Text(), c.marker, n)
      && c.Text()[..n] == c.Before() && c.Text()[n + |c.marker|..] == c.After()
      && c.Discourse() <= c.Before()
  {
    hide c.Discourse, c.After;
    var front := c.Discourse();
    assert front + c.withdrawn + c.particle + c.blanks == front + (c.withdrawn + c.particle + c.blanks);
  }

  lemma TokensAreFound(c: Correction)
    requires c.Valid()
    ensures TrailingCorrectionTokenStart(c.Before()) == Some(|c.Discourse()|)
    ensures TrimStart(c.After()) == c.correct + c.tail && LeadingCorrectionTokenEnd(c.correct + c.tail).Some?
  {
    hide IsToken, Blank, TrailingCorrectionTokenStart, LeadingCorrectionTokenEnd, TrimStart, IsOptional;
    WithdrawnIsFound(c.Discourse(), c.withdrawn, c.particle, c.blanks);
    ReplacementIsFound(c.space, c.correct, c.tail);
  }

  lemma DiscourseIsDropped(c: Correction)
    requires c.Valid()
    ensures WithoutDiscourse(TrimEnd(c.Discourse()), DISCOURSE) == TrimEnd(c.head)
  {
    DiscourseFits(c);
    hide Fits, Front, WithoutDiscourse, TrimEnd;
    PiecesAreDropped(c.head, [c.perhaps, c.presumably, c.atFirst, c.initially], DISCOURSE);
  }

  /** The withdrawn token goes with its discourse words and its particle; the new one stays. */
  lemma CorrectionReplaces(c: Correction)
    requires c.Valid()
    ensures Occurs(c.Text(), c.marker, |c.Before()|)
    ensures Corrected(c.Text(), c.marker, |c.Before()|) == Some(TrimEnd(c.head) + (c.correct + c.tail))
  {
    hide *;
    TextSplits(c);
    TokensAreFound(c);
    DiscourseIsDropped(c);
    assert c.Text()[..|c.Before()|][..|c.Discourse()|] == c.Discourse();
    CorrectedOf(c.Text(), c.marker, |c.Before()|, |c.Discourse()|, c.correct + c.tail);
  }

  /** What the correction leaves. */
  function Settled(c: Correction): string { TrimEnd(c.head) + (c.correct + c.tail) }

  /** `c` is what stands around the first marker of `s`. */
  ghost predicate IsFirstCorrection(c: Correction, s: string, marker: string) {
    c.Valid() && c.marker == marker && c.Text() == s && Find(s, marker) == Some(|c.Before()|)
  }

  /** The word that ends the text, if it is this one, with the blanks behind it. */
  lemma SplitWord(s: string, word: string) returns (inner: string, piece: string)
    requires word != ""
    ensures s == inner + piece && IsOptional(piece, word)
    ensures piece == "" ==> !EndsWith(TrimEnd(inner), word)
  {
    var t := TrimEnd(s);
    TrimEndSplits(s);
    inner, piece := s, "";
    if EndsWith(t, word) {
      inner := t[..|t| - |word|];
      piece := s[|inner|..];
      assert piece[..|word|] == word && piece[|word|..] == s[|t|..];
    }
  }

  lemma AllTokenCharacters(s: string)
    requires HasAlphanumeric(s) && forall i :: 0 <= i < |s| ==> IsTokenCharacter(s[i])
    ensures IsToken(s)
  {
    forall i | 0 <= i < |s| ensures IsWordCharacter(s[i]) {
      WordCharacters(s[i]);
    }
  }

  lemma TokenAtEnd(before: string) returns (front: string, token: string, particle: string, blanks: string)
    requires TrailingCorrectionTokenStart(before).Some?
    ensures TrailingCorrectionTokenStart(before).value == |front|
    ensures before == front + token + particle + blanks && IsToken(token) && Blank(blanks)
    ensures IsParticle(particle)
    ensures front == "" || !IsWordCharacter(front[|front| - 1])
  {
    hide *;
    var trimmed := TrimEnd(before);
    TrimEndSplits(before);
    var n := WithoutParticle(trimmed, PARTICLES);
    TrailingTokenOf(before, trimmed[..n]);
    ParticleIsDropped(trimmed);
    particle, blanks := trimmed[n..], before[|trimmed|..];
    front, token := TokenRun(trimmed[..n]);
    NoneOrLast(trimmed, n);
    assert before == trimmed + blanks && trimmed == trimmed[..n] + particle;
  }

  lemma NoneOrLast(s: string, n: nat)
    requires s != [] && n == if IsParticle([s[|s| - 1]]) then |s| - 1 else |s|
    ensures IsParticle(s[n..])
  {
    if n < |s| {
      assert s[n..] == [s[|s| - 1]];
    }
  }

  lemma TokenRun(prefix: string) returns (front: string, token: string)
    requires HasAlphanumeric(prefix[TrailingRunStart(IsTokenCharacter, prefix)..])
    ensures |front| == TrailingRunStart(IsTokenCharacter, prefix) && prefix == front + token && IsToken(token)
    ensures front == "" || !IsWordCharacter(front[|front| - 1])
  {
    hide *;
    var start := TrailingRunStart(IsTokenCharacter, prefix);
    front, token := prefix[..start], prefix[start..];
    AllTokenCharacters(token);
    if front != "" {
      assert front[|front| - 1] == prefix[start - 1];
      WordCharacters(front[|front| - 1]);
    }
  }

  lemma TokenAtStart(after: string) returns (space: string, token: string, tail: string)
    requires LeadingCorrectionTokenEnd(TrimStart(after)).Some?
    ensures after == space + (token + tail) && Blank(space) && IsToken(token)
    ensures TrimStart(after) == token + tail
  {
    var rest := TrimStart(after);
    var n := LeadingCorrectionTokenEnd(rest).value;
    var m := LeadingRun(IsWhitespace, after);
    space, token, tail := after[..m], rest[..n], rest[n..];
    assert after == space + rest && rest == token + tail;
    hide IsTokenCharacter, IsToken;
    AllTokenCharacters(token);
  }

  /** Where a correction is possible, a token stands before the marker and one behind it. */
  lemma TokensAround(s: string, marker: string, start: nat) returns (c: Correction)
    requires Occurs(s, marker, start) && Corrected(s, marker, start).Some?
    ensures c.Valid() && c.marker == marker && c.Text() == s && |c.Before()| == start
  {
    hide *;
    OccursSplits(s, marker, start);
    var before, after := s[..start], s[start + |marker|..];
    CorrectedNeeds(s, marker, start);
    var front, withdrawn, particle, blanks := TokenAtEnd(before);
    var space, correct, tail := TokenAtStart(after);
    c := CorrectionAround(front, withdrawn, particle, blanks, marker, space, correct, tail);
    TextOf(c);
  }

  lemma TextOf(c: Correction)
    ensures c.Text() == c.Before() + (c.marker + c.After())
  {
  }

  lemma CorrectionAround(front: string, withdrawn: string, particle: string, blanks: string, marker: string,
    space: string, correct: string, tail: string) returns (c: Correction)
    requires front == "" || !IsWordCharacter(front[|front| - 1])
    requires IsToken(withdrawn) && IsParticle(particle) && Blank(blanks) && Blank(space) && IsToken(correct)
    ensures c.Valid() && c.marker == marker
    ensures c.Before() == front + withdrawn + particle + blanks && c.After() == space + (correct + tail)
  {
    hide IsToken, Blank, IsOptional, TrimEnd, EndsWith, IsParticle, IsWordCharacter;
    var h3, perhaps := SplitWord(front, "たぶん");
    var h2, presumably := SplitWord(h3, "おそらく");
    var h1, atFirst := SplitWord(h2, "最初");
    var head, initially := SplitWord(h1, "当初");
    c := Correction(head, initially, atFirst, presumably, perhaps, withdrawn, particle, blanks, marker,
      space, correct, tail);
    assert c.Discourse() == front;
    assert head + "" == head && h1 + "" == h1 && h2 + "" == h2;
  }

  /** The corrections by one marker, decided by what stands around its first occurrence: between two
      tokens the new one takes the place of the withdrawn one, and otherwise nothing changes. */
  lemma CorrectedByExactly(s: string, marker: string)
    ensures Find(s, marker).None? ==> CorrectedBy(s, marker) == s
    ensures forall c :: IsFirstCorrection(c, s, marker) ==> CorrectedBy(s, marker) == CorrectedBy(Settled(c), marker)
    ensures (forall c :: !IsFirstCorrection(c, s, marker)) ==> CorrectedBy(s, marker) == s
  {
    forall c | IsFirstCorrection(c, s, marker) ensures CorrectedBy(s, marker) == CorrectedBy(Settled(c), marker) {
      CorrectionReplaces(c);
    }
    if Find(s, marker).Some? && Corrected(s, marker, Find(s, marker).value).Some? {
      var c := TokensAround(s, marker, Find(s, marker).value);
      assert IsFirstCorrection(c, s, marker);
    }
  }

  /** `c` is the only correction of its text. */
  ghost predicate IsOnlyCorrection(c: Correction) {
    var markers := [
      "と書きましたが正しくは", "と書いたけど正しくは", "、いや最終的に", "、いや正しくは", "、いや", "、じゃなくて",
      "じゃなくて", "、正しくは"];
    exists k :: 0 <= k < 8 && IsFirstCorrection(c, c.Text(), markers[k])
      && (forall i :: 0 <= i < k ==> !Contains(c.Text(), markers[i]))
      && (forall i :: k <= i < 8 ==> !Contains(Settled(c), markers[i]))
  }

  lemma {:induction false} OneMarkerActs(s: string, markers: seq<string>, k: nat, r: string)
    requires k < |markers| && CorrectedBy(s, markers[k]) == r
    requires forall i :: 0 <= i < k ==> !Contains(s, markers[i])
    requires forall i :: k < i < |markers| ==> !Contains(r, markers[i])
    ensures CorrectedByAll(s, markers) == r
    decreases k
  {
    AllStep(s, markers);
    hide *;
    if k == 0 {
      AbsentMarkers(r, markers[1..]);
    } else {
      AbsentMarker(s, markers[0]);
      OneMarkerActs(s, markers[1..], k - 1, r);
    }
  }

  lemma AllStep(s: string, markers: seq<string>)
    requires markers != []
    ensures CorrectedByAll(s, markers) == CorrectedByAll(CorrectedBy(s, markers[0]), markers[1..])
  {
  }

  lemma AbsentMarker(s: string, marker: string)
    requires !Contains(s, marker)
    ensures CorrectedBy(s, marker) == s
  {
  }

  lemma AbsentMarkers(s: string, markers: seq<string>)
    requires forall i :: 0 <= i < |markers| ==> !Contains(s, markers[i])
    ensures CorrectedByAll(s, markers) == s
  {
    CorrectedByAllDeletes(s, markers);
  }

  /** A text with one correction becomes its trimmed head, the new token and the tail. */
  lemma NewTokenSurvives(c: Correction)
    requires IsOnlyCorrection(c)
    ensures CorrectedByAll(c.Text(), CORRECTION_MARKERS) == TrimEnd(c.head) + (c.correct + c.tail)
  {
    var markers := CORRECTION_MARKERS;
    var k :| 0 <= k < 8 && IsFirstCorrection(c, c.Text(), markers[k])
      && (forall i :: 0 <= i < k ==> !Contains(c.Text(), markers[i]))
      && (forall i :: k <= i < 8 ==> !Contains(Settled(c), markers[i]));
    hide IsFirstCorrection, CorrectedByAll, CorrectedBy;
    CorrectedByExactly(c.Text(), markers[k]);
    CorrectedByExactly(Settled(c), markers[k]);
    OneMarkerActs(c.Text(), markers, k, Settled(c));
  }

  // ---------- Repeated confirmations ----------

  const CONFIRMATION_MARKERS: seq<string> := ["、あっ", "、あ、"]
  const CONFIRMATIONS: seq<string> := ["で合ってます", "で合っています", "で正しいです", "で間違いありません"]

  predicate EndsSegment(c: char) { c in "。！？\n、," }

  function SegmentEnd(s: string): (n: nat)
    ensures n <= |s|
  {
    LeadingRun(c => !EndsSegment(c), s)
  }

  /** The end of the confirmation at `start`, when it repeats a token that already occurred before.
      `mentions` is the case-insensitive term search. */
  function ConfirmationEnd(s: string, marker: string, start: nat, mentions: (string, string) -> bool): (r: Option<nat>)
    requires Occurs(s, marker, start)
    ensures r.Some? ==> start + |marker| <= r.value <= |s|
  {
    var tailStart := start + |marker|;
    var tail := s[tailStart..];
    var end := SegmentEnd(tail);
    var fragment := Trim(tail[..end]);
    match LeadingCorrectionTokenEnd(fragment)
    case None => None
    case Some(tokenEnd) =>
      if Trim(fragment[tokenEnd..]) in CONFIRMATIONS && mentions(s[..start], fragment[..tokenEnd])
      then Some(tailStart + end) else None
  }

  /** Confirmations after one marker, cut where it first occurs, until one cannot be cut there. */
  function ConfirmedBy(s: string, marker: string, mentions: (string, string) -> bool): string
    requires marker != []
    decreases |s|
  {
    match Find(s, marker)
    case None => s
    case Some(start) =>
      match ConfirmationEnd(s, marker, start, mentions)
      case None => s
      case Some(end) => ConfirmedBy(s[..start] + s[end..], marker, mentions)
  }

  function ConfirmedByAll(s: string, markers: seq<string>, mentions: (string, string) -> bool): string
    requires forall i :: 0 <= i < |markers| ==> markers[i] != []
    decreases |markers|
  {
    if markers == [] then s else ConfirmedByAll(ConfirmedBy(s, markers[0], mentions), markers[1..], mentions)
  }

  /** Cutting confirmations only deletes, and afterwards the first marker that is left confirms nothing. */
  lemma {:induction false} ConfirmedByDeletes(s: string, marker: string, mentions: (string, string) -> bool)
    requires marker != []
    ensures var r := ConfirmedBy(s, marker, mentions);
      && IsSubsequence(r, s)
      && (r != s ==> |r| < |s| && Find(s, marker).Some?)
      && (Find(r, marker).Some? ==> ConfirmationEnd(r, marker, Find(r, marker).value, mentions).None?)
    decreases |s|
  {
    hide IsSubsequence, ConfirmationEnd;
    SubsequenceOfSelf(s);
    var found := Find(s, marker);
    if found.Some? && ConfirmationEnd(s, marker, found.value, mentions).Some? {
      var end := ConfirmationEnd(s, marker, found.value, mentions).value;
      var r := s[..found.value] + s[end..];
      CutIsSubsequence(s, found.value, end);
      ConfirmedByDeletes(r, marker, mentions);
      SubsequenceIsTransitive(ConfirmedBy(r, marker, mentions), r, s);
    }
  }

  lemma {:induction false} ConfirmedByAllDeletes(s: string, markers: seq<string>, mentions: (string, string) -> bool)
    requires forall i :: 0 <= i < |markers| ==> markers[i] != []
    ensures IsSubsequence(ConfirmedByAll(s, markers, mentions), s)
    ensures (forall i :: 0 <= i < |markers| ==> Find(s, markers[i]).None?) ==> ConfirmedByAll(s, markers, mentions) == s
    decreases |markers|
  {
    hide IsSubsequence, ConfirmedBy;
    SubsequenceOfSelf(s);
    if markers != [] {
      var r := ConfirmedBy(s, markers[0], mentions);
      ConfirmedByDeletes(s, markers[0], mentions);
      ConfirmedByAllDeletes(r, markers[1..], mentions);
      SubsequenceIsTransitive(ConfirmedByAll(r, markers[1..], mentions), r, s);
    }
  }

  method RemoveConfirmations(input: string, marker: string, mentions: (string, string) -> bool)
    returns (normalized: string)
    requires marker != []
    ensures normalized == ConfirmedBy(input, marker, mentions)
  {
    normalized := input;
    var found := Find(normalized, marker);
    while found.Some?
      invariant found == Find(normalized, marker)
      invariant ConfirmedBy(input, marker, mentions) == ConfirmedBy(normalized, marker, mentions)
      decreases |normalized|
    {
      var end := ConfirmationEnd(normalized, marker, found.value, mentions);
      if end.None? {
        return;
      }
      normalized := normalized[..found.value] + normalized[end.value..];
      found := Find(normalized, marker);
    }
  }

  method RemoveRepeatedAsciiConfirmations(input: string, mentions: (string, string) -> bool)
    returns (normalized: string)
    ensures normalized == ConfirmedByAll(input, CONFIRMATION_MARKERS, mentions)
  {
    normalized := input;
    var markers := CONFIRMATION_MARKERS;
    hide ConfirmedBy;
    for i := 0 to |markers|
      invariant ConfirmedByAll(input, markers, mentions) == ConfirmedByAll(normalized, markers[i..], mentions)
    {
      assert markers[i..][0] == markers[i] && markers[i..][1..] == markers[i + 1..];
      normalized := RemoveConfirmations(normalized, markers[i], mentions);
    }
  }

  // ---------- Which piece is cut, written out ----------

  /** One of the six characters that end a segment. */
  predicate IsBreak(c: char) { c == '。' || c == '！' || c == '？' || c == '\n' || c == '、' || c == ',' }

  predicate HasNoBreak(s: string) { forall i :: 0 <= i < |s| ==> !IsBreak(s[i]) }

  predicate IsConfirmation(s: string) {
    s == "で合ってます" || s == "で合っています" || s == "で正しいです" || s == "で間違いありません"
  }

  /** `before`, the marker, blanks, a token, blanks, a confirmation, blanks, and `rest` behind the segment. */
  datatype Repetition = Repetition(before: string, marker: string, space: string, token: string, blanks: string,
    confirmation: string, more: string, rest: string)
  {
    function Claim(): string { token + (blanks + confirmation) }

    function Segment(): string { space + Claim() + more }

    function Text(): string { before + (marker + (Segment() + rest)) }

    ghost predicate Valid() {
      && Blank(space) && IsToken(token) && Blank(blanks) && IsConfirmation(confirmation) && Blank(more)
      && HasNoBreak(Segment()) && (rest == "" || IsBreak(rest[0]))
    }
  }

  lemma Breaks(c: char)
    ensures IsBreak(c) <==> EndsSegment(c)
  {
    assert c in "。！？\n、," <==> IsBreak(c);
  }

  lemma SegmentEndIs(s: string, n: nat)
    requires n <= |s| && HasNoBreak(s[..n]) && (n < |s| ==> IsBreak(s[n]))
    ensures SegmentEnd(s) == n
  {
    var m := SegmentEnd(s);
    if m < n {
      assert s[..n][m] == s[m];
      Breaks(s[m]);
    } else if n < m {
      Breaks(s[n]);
    }
  }

  lemma SegmentEndsAtBreak(s: string)
    ensures var n := SegmentEnd(s); HasNoBreak(s[..n]) && (n < |s| ==> IsBreak(s[n]))
  {
    var n := SegmentEnd(s);
    forall i | 0 <= i < n ensures !IsBreak(s[..n][i]) {
      Breaks(s[i]);
    }
    if n < |s| {
      Breaks(s[n]);
    }
  }

  lemma ConfirmationWords(s: string)
    ensures IsConfirmation(s) <==> s in CONFIRMATIONS
    ensures IsConfirmation(s) ==> s != "" && s[0] == 'で' && !IsWhitespace(s[|s| - 1])
  {
    assert CONFIRMATIONS[0] == "で合ってます" && CONFIRMATIONS[1] == "で合っています";
    assert CONFIRMATIONS[2] == "で正しいです" && CONFIRMATIONS[3] == "で間違いありません";
  }

  lemma ClaimIsRead(c: Repetition)
    requires c.Valid()
    ensures Trim(c.Segment()) == c.Claim()
    ensures LeadingCorrectionTokenEnd(c.Claim()) == Some(|c.token|)
    ensures c.Claim()[..|c.token|] == c.token && Trim(c.Claim()[|c.token|..]) in CONFIRMATIONS
  {
    var claim, last := c.Claim(), c.confirmation;
    TokenIsToken(c.token);
    ConfirmationWords(last);
    assert claim[0] == c.token[0] && claim[|claim| - 1] == last[|last| - 1];
    assert claim[..|c.token|] == c.token && claim[|c.token|..] == c.blanks + last;
    hide IsToken, Blank, IsConfirmation, Trim, HasAlphanumeric, CONFIRMATIONS, IsTokenCharacter;
    TrimOfBlanks(c.space, claim, c.more);
    TrimOfBlanks(c.blanks, last, "");
    assert c.blanks + last + "" == c.blanks + last;
    TokenRunEnds(c.token, c.blanks, last);
  }

  lemma TokenRunEnds(token: string, blanks: string, last: string)
    requires IsToken(token) && Blank(blanks) && last != "" && last[0] == 'で'
    ensures LeadingRun(IsTokenCharacter, token + (blanks + last)) == |token|
  {
    TokenIsToken(token);
    var s := token + (blanks + last);
    assert forall i :: 0 <= i < |token| ==> s[i] == token[i];
    assert s[|token|] == if blanks == "" then last[0] else blanks[0];
    WordCharacters(s[|token|]);
  }

  /** A repetition ends with its segment when the token is mentioned in front of it. */
  lemma RepetitionIsCut(c: Repetition, mentions: (string, string) -> bool)
    requires c.Valid()
    ensures Occurs(c.Text(), c.marker, |c.before|)
    ensures ConfirmationEnd(c.Text(), c.marker, |c.before|, mentions) ==
      if mentions(c.before, c.token) then Some(|c.Text()| - |c.rest|) else None
  {
    hide *;
    RepetitionSplits(c);
    ClaimIsRead(c);
    SegmentIsFound(c);
    ConfirmationOf(c.Text(), c.marker, |c.before|, |c.Segment()|, |c.token|, mentions);
    assert c.Text()[..|c.before|] == c.before;
    assert (c.Segment() + c.rest)[..|c.Segment()|] == c.Segment();
  }

  lemma SegmentIsFound(c: Repetition)
    requires c.Valid()
    ensures SegmentEnd(c.Segment() + c.rest) == |c.Segment()|
  {
    hide IsToken, Blank, IsConfirmation, SegmentEnd, IsBreak, HasNoBreak, c.Segment;
    var segment := c.Segment();
    var tail := segment + c.rest;
    assert tail[..|segment|] == segment;
    assert |segment| < |tail| ==> tail[|segment|] == c.rest[0];
    SegmentEndIs(tail, |segment|);
  }

  lemma ConfirmationOf(s: string, marker: string, start: nat, n: nat, tokenEnd: nat,
    mentions: (string, string) -> bool)
    requires Occurs(s, marker, start) && start + |marker| <= |s| && SegmentEnd(s[start + |marker|..]) == n
    requires var fragment := Trim(s[start + |marker|..][..n]);
      && LeadingCorrectionTokenEnd(fragment) == Some(tokenEnd) && Trim(fragment[tokenEnd..]) in CONFIRMATIONS
    ensures ConfirmationEnd(s, marker, start, mentions) ==
      if mentions(s[..start], Trim(s[start + |marker|..][..n])[..tokenEnd]) then Some(start + |marker| + n) else None
  {
    hide Trim, LeadingCorrectionTokenEnd, CONFIRMATIONS, SegmentEnd;
  }

  lemma RepetitionSplits(c: Repetition)
    ensures |c.before| + |c.marker| <= |c.Text()|
    ensures var text, n := c.Text(), |c.before|;
      && Occurs(text, c.marker, n) && text[..n] == c.before && text[n + |c.marker|..] == c.Segment() + c.rest
      && |text| == n + |c.marker| + |c.Segment()| + |c.rest|
      && text[..n] + text[|text| - |c.rest|..] == c.before + c.rest
  {
    hide c.Segment;
  }

  lemma TrimSplits(s: string)
    ensures exists space: string, more: string :: BlankAround(s, space, more)
  {
    TrimBySplits(IsWhitespace, s);
    var i, j := TrimStartIndex(IsWhitespace, s), TrimEndIndex(IsWhitespace, s);
    assert BlankAround(s, s[..i], s[j..]);
  }

  ghost predicate BlankAround(s: string, space: string, more: string) {
    s == space + Trim(s) + more && Blank(space) && Blank(more)
  }

  /** Where a repetition is cut, there is one. */
  lemma RepetitionAround(s: string, marker: string, start: nat, mentions: (string, string) -> bool)
    returns (c: Repetition)
    requires Occurs(s, marker, start) && ConfirmationEnd(s, marker, start, mentions).Some?
    ensures c.Valid() && c.marker == marker && c.Text() == s && |c.before| == start && mentions(c.before, c.token)
  {
    hide *;
    OccursSplits(s, marker, start);
    var tail := s[start + |marker|..];
    ConfirmationNeeds(s, marker, start, mentions);
    var n := SegmentEnd(tail);
    SegmentEndsAtBreak(tail);
    c := ClaimAround(s[..start], marker, tail[..n], tail[n..]);
    assert tail == tail[..n] + tail[n..];
    RepetitionText(c);
  }

  lemma RepetitionText(c: Repetition)
    ensures c.Text() == c.before + (c.marker + (c.Segment() + c.rest))
  {
  }

  lemma ConfirmationNeeds(s: string, marker: string, start: nat, mentions: (string, string) -> bool)
    requires Occurs(s, marker, start) && ConfirmationEnd(s, marker, start, mentions).Some?
    ensures start + |marker| <= |s|
    ensures var tail := s[start + |marker|..];
      var fragment := Trim(tail[..SegmentEnd(tail)]);
      var token := LeadingCorrectionTokenEnd(fragment);
      token.Some? && Trim(fragment[token.value..]) in CONFIRMATIONS && mentions(s[..start], fragment[..token.value])
  {
    hide Trim, LeadingCorrectionTokenEnd, CONFIRMATIONS, SegmentEnd;
  }

  lemma ClaimAround(before: string, marker: string, segment: string, rest: string) returns (c: Repetition)
    requires HasNoBreak(segment) && (rest == "" || IsBreak(rest[0]))
    requires LeadingCorrectionTokenEnd(Trim(segment)).Some?
    requires Trim(Trim(segment)[LeadingCorrectionTokenEnd(Trim(segment)).value..]) in CONFIRMATIONS
    ensures c.Valid() && c.before == before && c.marker == marker && c.Segment() == segment && c.rest == rest
    ensures c.token == Trim(segment)[..LeadingCorrectionTokenEnd(Trim(segment)).value]
  {
    hide Trim, Blank, IsToken, IsConfirmation, CONFIRMATIONS, HasNoBreak, IsBreak, HasAlphanumeric, IsTokenCharacter;
    var fragment := Trim(segment);
    var n := LeadingCorrectionTokenEnd(fragment).value;
    var token, claim := fragment[..n], fragment[n..];
    AllTokenCharacters(token);
    TrimSplits(segment);
    var space, more :| BlankAround(segment, space, more);
    TrimSplits(claim);
    var blanks, end :| BlankAround(claim, blanks, end);
    ConfirmationWords(Trim(claim));
    assert fragment == token + (blanks + Trim(claim)) + end;
    BlanksJoin(end, more);
    c := Repetition(before, marker, space, token, blanks, Trim(claim), end + more, rest);
    assert c.Segment() == space + fragment + more;
  }

  lemma BlanksJoin(a: string, b: string)
    requires Blank(a) && Blank(b)
    ensures Blank(a + b)
  {
  }

  ghost predicate IsFirstRepetition(c: Repetition, s: string, marker: string, mentions: (string, string) -> bool) {
    && c.Valid() && c.marker == marker && c.Text() == s
    && Find(s, marker) == Some(|c.before|) && mentions(c.before, c.token)
  }

  /** The cuts after one marker, decided by what stands around its first occurrence: the marker goes with
      its segment when that confirms a token mentioned before, and otherwise nothing changes. */
  lemma ConfirmedByExactly(s: string, marker: string, mentions: (string, string) -> bool)
    requires marker != []
    ensures Find(s, marker).None? ==> ConfirmedBy(s, marker, mentions) == s
    ensures forall c :: IsFirstRepetition(c, s, marker, mentions) ==>
      ConfirmedBy(s, marker, mentions) == ConfirmedBy(c.before + c.rest, marker, mentions)
    ensures (forall c :: !IsFirstRepetition(c, s, marker, mentions)) ==> ConfirmedBy(s, marker, mentions) == s
  {
    hide ConfirmationEnd, Occurs, Find;
    forall c | IsFirstRepetition(c, s, marker, mentions)
      ensures ConfirmedBy(s, marker, mentions) == ConfirmedBy(c.before + c.rest, marker, mentions)
    {
      RepetitionIsCut(c, mentions);
      RepetitionSplits(c);
    }
    if Find(s, marker).Some? && ConfirmationEnd(s, marker, Find(s, marker).value, mentions).Some? {
      var c := RepetitionAround(s, marker, Find(s, marker).value, mentions);
      assert IsFirstRepetition(c, s, marker, mentions);
    }
  }

  /** The two markers, in their order. */
  lemma ConfirmationsInTurn(s: string, mentions: (string, string) -> bool)
    ensures ConfirmedByAll(s, CONFIRMATION_MARKERS, mentions) ==
      ConfirmedBy(ConfirmedBy(s, "、あっ", mentions), "、あ、", mentions)
  {
    hide ConfirmedBy;
    var markers := CONFIRMATION_MARKERS;
    assert markers[1..] == ["、あ、"] && markers[1..][1..] == [];
  }

  // ---------- Redundant constraint tails ----------

  function Count(s: string, c: char): nat {
    if s == [] then 0 else (if s[0] == c then 1 else 0) + Count(s[1..], c)
  }

  lemma {:induction false} CountJoins(a: string, b: string, c: char)
    ensures Count(a + b, c) == Count(a, c) + Count(b, c)
  {
    if a == [] {
      assert a + b == b;
    } else {
      assert (a + b)[1..] == a[1..] + b;
      CountJoins(a[1..], b, c);
    }
  }

  lemma CountOfSlice(s: string, i: nat, j: nat, c: char)
    requires i <= j <= |s|
    ensures Count(s[i..j], c) <= Count(s, c)
  {
    CountJoins(s[..i], s[i..j], c);
    CountJoins(s[..j], s[j..], c);
    TakeMore(s, i, j);
    TakeDrop(s, j);
  }

  /** The position of the last `c`, or None. */
  function LastIndex(s: string, c: char): (r: Option<nat>)
    ensures r.Some? ==> r.value < |s| && s[r.value] == c && Count(s[r.value + 1..], c) == 0
    ensures r.None? ==> Count(s, c) == 0
  {
    if s == [] then None
    else match LastIndex(s[1..], c)
      case Some(i) => assert s[1..][i + 1..] == s[i + 2..]; Some(i + 1)
      case None => if s[0] == c then Some(0) else None
  }

  function Compact(s: string): string {
    if s == [] then [] else (if IsWhitespace(s[0]) then [] else [s[0]]) + Compact(s[1..])
  }

  predicate SkipsAfterClause(c: char) { IsWhitespace(c) || c in "。、,;；" }

  /** The constraint clauses of the input in compact form, and whether a text keeps every required
      term and every negative constraint of the input. */
  datatype TailRules = TailRules(clauses: seq<string>, acceptable: string -> bool)

  predicate IsKnownConstraint(rules: TailRules, tail: string) {
    exists i :: 0 <= i < |rules.clauses| &&
      var clause := Compact(rules.clauses[i]);
      clause != [] && (Contains(Compact(tail), clause) || Contains(clause, Compact(tail)))
  }

  /** The first clause that starts the tail, trimmed. */
  function MatchingClause(clauses: seq<string>, tail: string): (r: Option<string>)
    ensures r.Some? ==> r.value != [] && r.value <= tail
  {
    if clauses == [] then None
    else if Trim(clauses[0]) != [] && Trim(clauses[0]) <= tail then Some(Trim(clauses[0]))
    else MatchingClause(clauses[1..], tail)
  }

  /** One round of the loop: the text with its last `;` part shortened or dropped. */
  function WithoutTail(rules: TailRules, current: string): (r: Option<string>) {
    match LastIndex(current, ';')
    case None => None
    case Some(i) =>
      var head, tail := Trim(current[..i]), Trim(current[i + 1..]);
      if head == [] || tail == [] then None
      else if IsKnownConstraint(rules, tail) && rules.acceptable(head) then Some(head)
      else
        match MatchingClause(rules.clauses, tail)
        case None => None
        case Some(clause) =>
          var remainder := DropWhile(SkipsAfterClause, tail[|clause|..]);
          var candidate := if remainder == [] then head else head + "。" + remainder;
          if rules.acceptable(candidate) then Some(candidate) else None
  }

  lemma TrimNeverAdds(s: string, c: char)
    ensures Count(Trim(s), c) <= Count(s, c)
  {
    TrimBySplits(IsWhitespace, s);
    CountOfSlice(s, TrimStartIndex(IsWhitespace, s), TrimEndIndex(IsWhitespace, s), c);
  }

  lemma DropNeverAdds(s: string, n: nat, c: char)
    requires n <= |s|
    ensures Count(s[n..], c) <= Count(s, c)
  {
    CountJoins(s[..n], s[n..], c);
    TakeDrop(s, n);
  }

  /** Around the last separator: the part before it has one separator less, the part after has none. */
  lemma PartsHaveFewer(s: string)
    requires LastIndex(s, ';').Some?
    ensures var i := LastIndex(s, ';').value;
      Count(s[..i], ';') + 1 == Count(s, ';') && Count(s[i + 1..], ';') == 0
  {
    var i := LastIndex(s, ';').value;
    CountJoins(s[..i], s[i..], ';');
    TakeDrop(s, i);
    assert s[i..][1..] == s[i + 1..];
  }

  lemma JoinedHasFewer(head: string, tail: string, n: nat)
    requires n <= |tail| && Count(tail, ';') == 0
    ensures Count(head + "。" + DropWhile(SkipsAfterClause, tail[n..]), ';') == Count(head, ';')
  {
    var rest := tail[n..];
    var remainder := DropWhile(SkipsAfterClause, rest);
    DropNeverAdds(tail, n, ';');
    DropNeverAdds(rest, LeadingRun(SkipsAfterClause, rest), ';');
    CountJoins(head + "。", remainder, ';');
    CountJoins(head, "。", ';');
    assert Count("。", ';') == 0;
  }

  lemma WithoutTailDropsSeparator(rules: TailRules, current: string)
    requires WithoutTail(rules, current).Some?
    ensures Count(WithoutTail(rules, current).value, ';') < Count(current, ';')
    ensures rules.acceptable(WithoutTail(rules, current).value)
  {
    hide Count, Trim, IsKnownConstraint, DropWhile;
    var i := LastIndex(current, ';').value;
    var head, tail := Trim(current[..i]), Trim(current[i + 1..]);
    PartsHaveFewer(current);
    TrimNeverAdds(current[..i], ';');
    TrimNeverAdds(current[i + 1..], ';');
    if !(IsKnownConstraint(rules, tail) && rules.acceptable(head)) {
      JoinedHasFewer(head, tail, |MatchingClause(rules.clauses, tail).value|);
    }
  }

  /** Rounds until none is possible. */
  function WithoutTails(rules: TailRules, current: string): string
    decreases Count(current, ';')
  {
    match WithoutTail(rules, current)
    case None => current
    case Some(next) =>
      WithoutTailDropsSeparator(rules, current);
      WithoutTails(rules, next)
  }

  /** The rounds end for every text, since each leaves fewer `;`, and what they leave is the text they
      were given or keeps every required term and negative constraint. */
  lemma {:induction false} WithoutTailsIsAcceptable(rules: TailRules, current: string)
    ensures var r := WithoutTails(rules, current);
      && (r == current || (rules.acceptable(r) && Count(r, ';') < Count(current, ';')))
      && WithoutTail(rules, r).None?
    decreases Count(current, ';')
  {
    hide WithoutTail, Count;
    if WithoutTail(rules, current).Some? {
      WithoutTailDropsSeparator(rules, current);
      WithoutTailsIsAcceptable(rules, WithoutTail(rules, current).value);
    }
  }

  // ---------- Which tail goes, written out ----------

  lemma {:induction false} CompactJoins(a: string, b: string)
    ensures Compact(a + b) == Compact(a) + Compact(b)
  {
    if a == [] {
      assert a + b == b;
    } else {
      assert (a + b)[1..] == a[1..] + b;
      CompactJoins(a[1..], b);
    }
  }

  /** Compacting takes out every white-space character, wherever it stands, and no other. */
  lemma CompactTakesBlanksOut(a: string, c: char, b: string)
    ensures Compact(a + [c] + b) == Compact(a) + (if IsWhitespace(c) then "" else [c]) + Compact(b)
    ensures Compact("") == ""
  {
    CompactJoins(a + [c], b);
    CompactJoins(a, [c]);
    assert [c][1..] == [];
  }

  lemma {:induction false} LastSeparator(front: string, back: string)
    requires ';' !in back
    ensures LastIndex(front + (";" + back), ';') == Some(|front|)
  {
    hide Count;
    var s := front + (";" + back);
    if front == "" {
      assert s[0] == ';' && s[1..] == back;
    } else {
      assert s[1..] == front[1..] + (";" + back);
      LastSeparator(front[1..], back);
    }
  }

  /** In compact form one of the texts holds the other. */
  predicate Overlap(tail: string, clause: string) {
    var short := Compact(clause);
    short != "" && (Contains(Compact(tail), short) || Contains(short, Compact(tail)))
  }

  /** The clause starts the tail: what is skipped behind it are blanks and separators, then comes the remainder. */
  ghost predicate Starts(clause: string, tail: string, skipped: string, remainder: string) {
    && Trim(clause) != "" && tail == Trim(clause) + (skipped + remainder)
    && (forall i :: 0 <= i < |skipped| ==> IsSkipped(skipped[i])) && (remainder != "" ==> !IsSkipped(remainder[0]))
  }

  predicate IsSkipped(c: char) {
    IsWhitespace(c) || c == '。' || c == '、' || c == ',' || c == ';' || c == '；'
  }

  lemma SkippedCharacters(c: char)
    ensures IsSkipped(c) <==> SkipsAfterClause(c)
  {
    assert c in "。、,;；" <==> c == '。' || c == '、' || c == ',' || c == ';' || c == '；';
  }

  lemma SkippedRun(skipped: string, remainder: string)
    requires forall i :: 0 <= i < |skipped| ==> IsSkipped(skipped[i])
    requires remainder != "" ==> !IsSkipped(remainder[0])
    ensures DropWhile(SkipsAfterClause, skipped + remainder) == remainder
  {
    var s := skipped + remainder;
    forall i | 0 <= i < |skipped| ensures SkipsAfterClause(s[i]) {
      assert s[i] == skipped[i];
      SkippedCharacters(s[i]);
    }
    if remainder != "" {
      assert s[|skipped|] == remainder[0];
      SkippedCharacters(remainder[0]);
    }
    hide IsSkipped, SkipsAfterClause;
    assert LeadingRun(SkipsAfterClause, s) == |skipped|;
  }

  lemma {:induction false} FirstMatch(clauses: seq<string>, tail: string, k: nat)
    requires k < |clauses| && Trim(clauses[k]) != "" && Trim(clauses[k]) <= tail
    requires forall i :: 0 <= i < k ==> Trim(clauses[i]) == "" || !(Trim(clauses[i]) <= tail)
    ensures MatchingClause(clauses, tail) == Some(Trim(clauses[k]))
    decreases k
  {
    hide Trim;
    if k > 0 {
      FirstMatch(clauses[1..], tail, k - 1);
    }
  }

  lemma {:induction false} NoMatch(clauses: seq<string>, tail: string)
    requires forall i :: 0 <= i < |clauses| ==> Trim(clauses[i]) == "" || !(Trim(clauses[i]) <= tail)
    ensures MatchingClause(clauses, tail).None?
  {
    hide Trim;
    if clauses != [] {
      NoMatch(clauses[1..], tail);
    }
  }

  /** A tail that overlaps a clause goes as a whole when the head alone is acceptable. */
  lemma OverlappingTailGoes(rules: TailRules, front: string, back: string, k: nat)
    requires ';' !in back && Trim(front) != "" && Trim(back) != "" && rules.acceptable(Trim(front))
    requires k < |rules.clauses| && Overlap(Trim(back), rules.clauses[k])
    ensures WithoutTails(rules, front + (";" + back)) == WithoutTails(rules, Trim(front))
  {
    hide *;
    LastSeparator(front, back);
    OverlapIsKnown(rules, Trim(back), k);
    RoundDrops(rules, front, back);
    NextRound(rules, front + (";" + back));
  }

  lemma OverlapIsKnown(rules: TailRules, tail: string, k: nat)
    requires k < |rules.clauses| && Overlap(tail, rules.clauses[k])
    ensures IsKnownConstraint(rules, tail)
  {
  }

  lemma RoundDrops(rules: TailRules, front: string, back: string)
    requires LastIndex(front + (";" + back), ';') == Some(|front|) && IsKnownConstraint(rules, Trim(back))
    requires Trim(front) != "" && Trim(back) != "" && rules.acceptable(Trim(front))
    ensures WithoutTail(rules, front + (";" + back)) == Some(Trim(front))
  {
    hide Trim, LastIndex, IsKnownConstraint;
    var s := front + (";" + back);
    assert s[..|front|] == front && s[|front| + 1..] == back;
  }

  lemma NextRound(rules: TailRules, s: string)
    ensures WithoutTails(rules, s) ==
      if WithoutTail(rules, s).None? then s else WithoutTails(rules, WithoutTail(rules, s).value)
  {
    hide WithoutTail, Count;
  }

  /** Nothing of the text overlaps a clause, or the head alone is not acceptable. */
  predicate KeepsTail(rules: TailRules, front: string, back: string) {
    !rules.acceptable(Trim(front)) || forall k :: 0 <= k < |rules.clauses| ==> !Overlap(Trim(back), rules.clauses[k])
  }

  /** Otherwise the first clause that starts the tail goes with the separators behind it, when what is left
      is acceptable, and the remainder follows the head as a sentence of its own. */
  lemma StartingClauseGoes(rules: TailRules, front: string, back: string, k: nat, skipped: string, remainder: string)
    requires ';' !in back && Trim(front) != "" && Trim(back) != "" && KeepsTail(rules, front, back)
    requires k < |rules.clauses| && Starts(rules.clauses[k], Trim(back), skipped, remainder)
    requires forall i :: 0 <= i < k ==> Trim(rules.clauses[i]) == "" || !(Trim(rules.clauses[i]) <= Trim(back))
    ensures var left := if remainder == "" then Trim(front) else Trim(front) + "。" + remainder;
      WithoutTails(rules, front + (";" + back)) ==
        if rules.acceptable(left) then WithoutTails(rules, left) else front + (";" + back)
  {
    var tail, clause := Trim(back), Trim(rules.clauses[k]);
    LastSeparator(front, back);
    SkippedRun(skipped, remainder);
    FirstMatch(rules.clauses, tail, k);
    assert tail[|clause|..] == skipped + remainder;
    RoundOf(rules, front, back, Some(clause));
    hide WithoutTail, Trim, Count, DropWhile, SkipsAfterClause;
  }

  /** And without such a clause the text stays. */
  lemma OtherTailStays(rules: TailRules, front: string, back: string)
    requires ';' !in back && KeepsTail(rules, front, back)
    requires forall i :: 0 <= i < |rules.clauses| ==>
      Trim(rules.clauses[i]) == "" || !(Trim(rules.clauses[i]) <= Trim(back))
    ensures WithoutTails(rules, front + (";" + back)) == front + (";" + back)
  {
    LastSeparator(front, back);
    NoMatch(rules.clauses, Trim(back));
    RoundOf(rules, front, back, None);
    hide WithoutTail, Trim, Count;
  }

  lemma RoundOf(rules: TailRules, front: string, back: string, clause: Option<string>)
    requires LastIndex(front + (";" + back), ';') == Some(|front|) && KeepsTail(rules, front, back)
    requires MatchingClause(rules.clauses, Trim(back)) == clause
    ensures var head, tail := Trim(front), Trim(back);
      WithoutTail(rules, front + (";" + back)) ==
        if head == "" || tail == "" || clause.None? then None
        else
          var remainder := DropWhile(SkipsAfterClause, tail[|clause.value|..]);
          var left := if remainder == "" then head else head + "。" + remainder;
          if rules.acceptable(left) then Some(left) else None
  {
    hide Trim, DropWhile, MatchingClause, LastIndex;
    var s := front + (";" + back);
    assert s[..|front|] == front && s[|front| + 1..] == back;
    assert rules.acceptable(Trim(front)) ==> !IsKnownConstraint(rules, Trim(back)) by {
      if KeepsTail(rules, front, back) && IsKnownConstraint(rules, Trim(back)) {
        var i :| 0 <= i < |rules.clauses| &&
          var clause := Compact(rules.clauses[i]);
          clause != [] && (Contains(Compact(Trim(back)), clause) || Contains(clause, Compact(Trim(back))));
        assert Overlap(Trim(back), rules.clauses[i]);
      }
    }
  }

  method RemoveRedundantConstraintTail(rules: TailRules, normalizedOutput: string) returns (current: string)
    ensures current == WithoutTails(rules, Trim(normalizedOutput))
  {
    current := Trim(normalizedOutput);
    hide Count, Trim, IsKnownConstraint, DropWhile;
    while true
      invariant WithoutTails(rules, Trim(normalizedOutput)) == WithoutTails(rules, current)
      decreases Count(current, ';')
    {
      var separator := LastIndex(current, ';');
      if separator.None? {
        return;
      }
      var head, tail := Trim(current[..separator.value]), Trim(current[separator.value + 1..]);
      if head == [] || tail == [] {
        return;
      }
      if IsKnownConstraint(rules, tail) && rules.acceptable(head) {
        WithoutTailDropsSeparator(rules, current);
        current := head;
        continue;
      }
      var clause := MatchingClause(rules.clauses, tail);
      if clause.None? {
        return;
      }
      var remainder := DropWhile(SkipsAfterClause, tail[|clause.value|..]);
      var candidate := if remainder == [] then head else head + "。" + remainder;
      if !rules.acceptable(candidate) {
        return;
      }
      WithoutTailDropsSeparator(rules, current);
      current := candidate;
    }
  }
}
