/** Rewriting the text outside quoted literals (runtime/backend.rs, `map_unquoted_spans`). */
module QuotedSpans {
  import opened Sequences
  import opened Text

  /** The quote that ends a literal opened by `c`, if `c` opens one. */
  function Closer(c: char): Option<char> {
    match c
    case '"' => Some('"')
    case '\'' => Some('\'')
    case '`' => Some('`')
    case '「' => Some('」')
    case '『' => Some('』')
    case _ => None
  }

  /** Only the ASCII quotes know backslash escapes. */
  predicate Escapes(closer: char) { closer == '"' || closer == '\'' || closer == '`' }

  ghost predicate NoOpener(s: string) { forall i :: 0 <= i < |s| ==> Closer(s[i]).None? }

  datatype Segment = Plain(text: string) | Literal(text: string)

  /** Where the first opening quote is, or the length of the text. */
  function PlainLength(s: string): (n: nat)
    ensures n <= |s| && NoOpener(s[..n]) && (n < |s| ==> Closer(s[n]).Some?)
  {
    if s == [] || Closer(s[0]).Some? then 0 else
      assert forall i :: 0 <= i < PlainLength(s[1..]) ==> s[1 + i] == s[1..][i];
      1 + PlainLength(s[1..])
  }

  /** Where the literal that starts `s` ends, when its characters from `i` on are still to be read. */
  function LiteralEnd(s: string, closer: char, i: nat, escaped: bool): (end: Option<nat>)
    requires i <= |s|
    ensures end.Some? ==> i < end.value <= |s|
    decreases |s| - i
  {
    if i == |s| then None
    else if Escapes(closer) && s[i] == '\\' && !escaped then LiteralEnd(s, closer, i + 1, true)
    else if s[i] == closer && !escaped then Some(i + 1)
    else LiteralEnd(s, closer, i + 1, false)
  }

  function LiteralLength(s: string): (end: Option<nat>)
    requires s != [] && Closer(s[0]).Some?
    ensures end.Some? ==> 1 < end.value <= |s|
  {
    LiteralEnd(s, Closer(s[0]).value, 1, false)
  }

  /** The text as plain spans and literals in turn; a literal that is never closed is the last. */
  function Segments(s: string): (r: seq<Segment>)
    ensures r != []
    decreases |s|, 1
  {
    var n := PlainLength(s);
    [Plain(s[..n])] + if n == |s| then [] else AfterPlain(s[n..])
  }

  function AfterPlain(s: string): seq<Segment>
    requires s != [] && Closer(s[0]).Some?
    decreases |s|, 0
  {
    match LiteralLength(s)
    case None => [Literal(s)]
    case Some(end) => [Literal(s[..end])] + Segments(s[end..])
  }

  function Rewrite(segment: Segment, f: string -> string): Segment {
    match segment case Plain(text) => Plain(f(text)) case Literal(_) => segment
  }

  function RewriteAll(segments: seq<Segment>, f: string -> string): (r: seq<Segment>)
    ensures |r| == |segments| && forall i :: 0 <= i < |r| ==> r[i] == Rewrite(segments[i], f)
  {
    if segments == [] then [] else [Rewrite(segments[0], f)] + RewriteAll(segments[1..], f)
  }

  function Render(segments: seq<Segment>): string {
    if segments == [] then [] else segments[0].text + Render(segments[1..])
  }

  /** The specification: only the plain spans are rewritten. */
  function Mapped(s: string, f: string -> string): string { Render(RewriteAll(Segments(s), f)) }

  // ---------- The loop ----------

  /** What is still to be emitted while a literal is open. */
  function MappedInLiteral(s: string, closer: char, i: nat, escaped: bool, f: string -> string): string
    requires i <= |s|
  {
    match LiteralEnd(s, closer, i, escaped)
    case None => s
    case Some(end) => s[..end] + Mapped(s[end..], f)
  }

  lemma RenderCons(first: Segment, rest: seq<Segment>, f: string -> string)
    ensures RewriteAll([first] + rest, f) == [Rewrite(first, f)] + RewriteAll(rest, f)
    ensures Render(RewriteAll([first] + rest, f)) == Rewrite(first, f).text + Render(RewriteAll(rest, f))
  {
    assert ([first] + rest)[1..] == rest;
    assert RewriteAll([first] + rest, f)[1..] == RewriteAll(rest, f);
  }

  lemma MappedLiteral(rest: string, f: string -> string)
    requires rest != [] && Closer(rest[0]).Some?
    ensures Render(RewriteAll(AfterPlain(rest), f)) == MappedInLiteral(rest, Closer(rest[0]).value, 1, false, f)
  {
    match LiteralLength(rest)
    case None =>
      RenderCons(Literal(rest), [], f);
      assert [Literal(rest)] + [] == [Literal(rest)] && rest + [] == rest;
    case Some(end) =>
      RenderCons(Literal(rest[..end]), Segments(rest[end..]), f);
  }

  lemma MappedAtOpener(s: string, n: nat, f: string -> string)
    requires n < |s| && NoOpener(s[..n]) && Closer(s[n]).Some?
    ensures Mapped(s, f) == f(s[..n]) + MappedInLiteral(s[n..], Closer(s[n]).value, 1, false, f)
  {
    hide AfterPlain, MappedInLiteral, LiteralLength, RewriteAll, Render;
    PlainLengthIs(s, n);
    RenderCons(Plain(s[..n]), AfterPlain(s[n..]), f);
    MappedLiteral(s[n..], f);
  }

  lemma {:induction false} PlainLengthIs(s: string, n: nat)
    requires n <= |s| && NoOpener(s[..n]) && (n < |s| ==> Closer(s[n]).Some?)
    ensures PlainLength(s) == n
  {
    if n > 0 {
      assert s[0] == s[..n][0];
      assert s[1..][..n - 1] == s[..n][1..];
      PlainLengthIs(s[1..], n - 1);
    }
  }

  lemma MappedPlain(s: string, f: string -> string)
    requires NoOpener(s)
    ensures Mapped(s, f) == f(s)
  {
    assert s[..|s|] == s;
    PlainLengthIs(s, |s|);
    assert Segments(s) == [Plain(s)] + [];
    RenderCons(Plain(s), [], f);
    RenderNothing(f);
    assert f(s) + [] == f(s);
  }

  lemma RenderNothing(f: string -> string)
    ensures RewriteAll([], f) == [] && Render([]) == []
  {
  }

  /** Rewrites the text outside quoted literals and copies the literals unchanged. */
  method MapUnquotedSpans(value: string, transform: string -> string) returns (output: string)
    ensures output == Mapped(value, transform)
  {
    hide Mapped, MappedInLiteral;
    output := "";
    var plainStart := 0;
    var literalStart: Option<nat> := None;
    var literalCloser := '\0';
    var escaped := false;
    assert value[0..] == value;
    for index := 0 to |value|
      invariant literalStart.None? ==>
        && plainStart <= index && NoOpener(value[plainStart..index])
        && Mapped(value, transform) == output + Mapped(value[plainStart..], transform)
      invariant literalStart.Some? ==>
        && literalStart.value < index
        && Mapped(value, transform) == output +
             MappedInLiteral(value[literalStart.value..], literalCloser, index - literalStart.value, escaped, transform)
    {
      var character := value[index];
      if literalStart.Some? {
        var start := literalStart.value;
        LiteralStep(value, start, index, literalCloser, escaped, transform);
        if Escapes(literalCloser) && character == '\\' && !escaped {
          escaped := true;
          continue;
        }
        if character == literalCloser && !escaped {
          var end := index + 1;
          Associative(output, value[start..end], Mapped(value[end..], transform));
          output := output + value[start..end];
          plainStart := end;
          literalStart := None;
        }
        escaped := false;
        continue;
      }
      var closer := Closer(character);
      if closer.Some? {
        ghost var rest := value[plainStart..];
        assert rest[..index - plainStart] == value[plainStart..index] && rest[index - plainStart..] == value[index..];
        MappedAtOpener(rest, index - plainStart, transform);
        Associative(output, transform(value[plainStart..index]),
          MappedInLiteral(value[index..], closer.value, 1, false, transform));
        output := output + transform(value[plainStart..index]);
        literalStart := Some(index);
        literalCloser := closer.value;
        escaped := false;
      } else {
        assert value[plainStart..index + 1] == value[plainStart..index] + [character];
      }
    }
    if literalStart.Some? {
      var start := literalStart.value;
      LiteralNeverEnds(value[start..], literalCloser, escaped, transform);
      output := output + value[start..];
    } else {
      assert value[plainStart..|value|] == value[plainStart..];
      MappedPlain(value[plainStart..], transform);
      output := output + transform(value[plainStart..]);
    }
  }

  lemma LiteralNeverEnds(s: string, closer: char, escaped: bool, f: string -> string)
    ensures MappedInLiteral(s, closer, |s|, escaped, f) == s
  {
  }

  lemma LiteralStep(value: string, start: nat, index: nat, closer: char, escaped: bool, f: string -> string)
    requires start < index < |value|
    ensures var s, i := value[start..], index - start;
      MappedInLiteral(s, closer, i, escaped, f) ==
        if Escapes(closer) && value[index] == '\\' && !escaped then MappedInLiteral(s, closer, i + 1, true, f)
        else if value[index] == closer && !escaped then value[start..index + 1] + Mapped(value[index + 1..], f)
        else MappedInLiteral(s, closer, i + 1, false, f)
  {
    hide Mapped;
    var s, i := value[start..], index - start;
    assert s[..i + 1] == value[start..index + 1] && s[i + 1..] == value[index + 1..];
  }

  // ---------- Laws ----------

  lemma {:induction false} RenderSegments(s: string)
    ensures Render(Segments(s)) == s
    decreases |s|
  {
    var n := PlainLength(s);
    TakeDrop(s, n);
    if n == |s| {
      assert Segments(s) == [Plain(s[..n])];
      assert Render(Segments(s)) == s[..n] + [];
    } else {
      var rest := s[n..];
      assert Segments(s)[1..] == AfterPlain(rest);
      match LiteralLength(rest)
      case None =>
        assert Render([Literal(rest)]) == rest + [];
      case Some(end) =>
        TakeDrop(rest, end);
        RenderSegments(rest[end..]);
        assert AfterPlain(rest)[1..] == Segments(rest[end..]);
    }
  }

  lemma {:induction false} RewriteByIdentity(segments: seq<Segment>)
    ensures RewriteAll(segments, t => t) == segments
  {
    if segments != [] {
      RewriteByIdentity(segments[1..]);
    }
  }

  /** Rewriting nothing changes nothing. */
  lemma IdentityRewrite(s: string)
    ensures Mapped(s, t => t) == s
  {
    RewriteByIdentity(Segments(s));
    RenderSegments(s);
  }

  /** The rewrite turns text without opening quotes into text without opening quotes. */
  ghost predicate AddsNoOpener(f: string -> string) {
    forall s :: NoOpener(s) ==> NoOpener(f(s))
  }

  lemma {:induction false} LiteralEndStable(s: string, more: string, closer: char, i: nat, escaped: bool)
    requires i <= |s| && LiteralEnd(s, closer, i, escaped).Some?
    ensures LiteralEnd(s + more, closer, i, escaped) == LiteralEnd(s, closer, i, escaped)
    decreases |s| - i
  {
    assert (s + more)[i] == s[i];
    if Escapes(closer) && s[i] == '\\' && !escaped {
      LiteralEndStable(s, more, closer, i + 1, true);
    } else if !(s[i] == closer && !escaped) {
      LiteralEndStable(s, more, closer, i + 1, false);
    }
  }

  lemma {:induction false} LiteralEndOfPrefix(s: string, end: nat, closer: char, i: nat, escaped: bool)
    requires i <= |s| && LiteralEnd(s, closer, i, escaped) == Some(end)
    ensures end <= |s| && i <= |s[..end]| && LiteralEnd(s[..end], closer, i, escaped) == Some(end)
    decreases |s| - i
  {
    if Escapes(closer) && s[i] == '\\' && !escaped {
      LiteralEndOfPrefix(s, end, closer, i + 1, true);
    } else if !(s[i] == closer && !escaped) {
      LiteralEndOfPrefix(s, end, closer, i + 1, false);
    }
  }

  lemma AfterPlainOf(literal: string, rest: string)
    requires literal != [] && Closer(literal[0]).Some? && LiteralLength(literal) == Some(|literal|)
    ensures AfterPlain(literal + rest) == [Literal(literal)] + Segments(rest)
  {
    hide LiteralEnd, Segments;
    LiteralEndStable(literal, rest, Closer(literal[0]).value, 1, false);
    assert (literal + rest)[..|literal|] == literal && (literal + rest)[|literal|..] == rest;
  }

  /** A whole literal between plain text is found again. */
  lemma SegmentsOf(plain: string, literal: string, rest: string)
    requires NoOpener(plain) && literal != [] && Closer(literal[0]).Some?
    requires LiteralLength(literal) == Some(|literal|)
    ensures Segments(plain + (literal + rest)) == [Plain(plain)] + ([Literal(literal)] + Segments(rest))
  {
    hide AfterPlain, LiteralLength, PlainLength;
    var tail := literal + rest;
    assert (plain + tail)[..|plain|] == plain && (plain + tail)[|plain|..] == tail;
    assert (plain + tail)[|plain|] == literal[0];
    PlainLengthIs(plain + tail, |plain|);
    AfterPlainOf(literal, rest);
  }

  lemma SegmentsOfOpen(plain: string, literal: string)
    requires NoOpener(plain) && literal != [] && Closer(literal[0]).Some? && LiteralLength(literal).None?
    ensures Segments(plain + literal) == [Plain(plain), Literal(literal)]
  {
    var s := plain + literal;
    assert s[..|plain|] == plain && s[|plain|..] == literal && s[|plain|] == literal[0];
    PlainLengthIs(s, |plain|);
  }

  /** After a rewrite that adds no opening quote the text has the same literals in the same places,
      unterminated ones included, and its plain spans are the rewritten ones. */
  lemma {:induction false} LiteralsSurvive(s: string, f: string -> string)
    requires AddsNoOpener(f)
    ensures Segments(Mapped(s, f)) == RewriteAll(Segments(s), f)
    decreases |s|
  {
    var n := PlainLength(s);
    var plain := f(s[..n]);
    assert NoOpener(plain);
    if n == |s| {
      assert s[..n] == s;
      MappedPlain(s, f);
      PlainLengthIs(plain, |plain|);
      assert plain[..|plain|] == plain;
      assert Segments(s) == [Plain(s)];
    } else {
      var rest := s[n..];
      MappedAtOpener(s, n, f);
      RenderCons(Plain(s[..n]), AfterPlain(rest), f);
      match LiteralLength(rest)
      case None =>
        RenderCons(Literal(rest), [], f);
        assert [Literal(rest)] + [] == [Literal(rest)];
        SegmentsOfOpen(plain, rest);
      case Some(end) =>
        LiteralEndOfPrefix(rest, end, Closer(rest[0]).value, 1, false);
        LiteralsSurvive(rest[end..], f);
        SegmentsOf(plain, rest[..end], Mapped(rest[end..], f));
        RenderCons(Literal(rest[..end]), Segments(rest[end..]), f);
    }
  }

  /** Two passes are one pass with the composed rewrite. */
  lemma TwoPassesAreOne(s: string, f: string -> string, g: string -> string)
    requires AddsNoOpener(f)
    ensures Mapped(Mapped(s, f), g) == Mapped(s, t => g(f(t)))
  {
    LiteralsSurvive(s, f);
    var segments := Segments(s);
    assert RewriteAll(RewriteAll(segments, f), g) == RewriteAll(segments, t => g(f(t)));
  }

  /** A rewrite that opens a quote in plain text makes a literal of what was none. */
  lemma OpenedQuoteIsLiteral(t: string, f: string -> string)
    requires NoOpener(t) && !NoOpener(f(t))
    ensures Segments(Mapped(t, f)) != RewriteAll(Segments(t), f)
    ensures Mapped(Mapped(t, f), u => "") != Mapped(t, u => "")
  {
    MappedPlain(t, f);
    MappedPlain(t, u => "");
    var s := f(t);
    var n := PlainLength(s);
    assert s[..|s|] == s;
    MappedAtOpener(s, n, u => "");
    assert |Segments(s)| >= 2;
    PlainIsOneSegment(t);
  }

  lemma PlainIsOneSegment(t: string)
    requires NoOpener(t)
    ensures |Segments(t)| == 1
  {
    assert t[..|t|] == t;
    PlainLengthIs(t, |t|);
  }

  /** Literals survive every text exactly when the rewrite adds no opening quote. */
  lemma LiteralsSurviveExactly(f: string -> string)
    ensures (forall s :: Segments(Mapped(s, f)) == RewriteAll(Segments(s), f)) <==> AddsNoOpener(f)
  {
    hide Segments, Mapped, RewriteAll, NoOpener;
    if AddsNoOpener(f) {
      forall s ensures Segments(Mapped(s, f)) == RewriteAll(Segments(s), f) {
        LiteralsSurvive(s, f);
      }
    } else {
      var t :| NoOpener(t) && !NoOpener(f(t));
      OpenedQuoteIsLiteral(t, f);
    }
  }

  /** And exactly then two passes are one pass, whatever the second rewrite is. */
  lemma TwoPassesAreOneExactly(f: string -> string)
    ensures (forall s, g :: Mapped(Mapped(s, f), g) == Mapped(s, t => g(f(t)))) <==> AddsNoOpener(f)
  {
    hide Segments, RewriteAll, NoOpener;
    if AddsNoOpener(f) {
      forall s, g: string -> string ensures Mapped(Mapped(s, f), g) == Mapped(s, t => g(f(t))) {
        TwoPassesAreOne(s, f, g);
      }
    } else {
      var t :| NoOpener(t) && !NoOpener(f(t));
      OpenedQuoteIsLiteral(t, f);
      var g: string -> string := u => "";
      MappedPlain(t, u => "");
      MappedPlain(t, u => g(f(u)));
      assert Mapped(Mapped(t, f), g) != Mapped(t, u => g(f(u)));
    }
  }

  // ---------- Which characters are copied, written out ----------

  /** None of the five opening quotes. */
  predicate IsUnquoted(s: string) {
    forall i :: 0 <= i < |s| ==> s[i] != '"' && s[i] != '\'' && s[i] != '`' && s[i] != '「' && s[i] != '『'
  }

  /** Characters between two ASCII quotes: a backslash takes any character with it. */
  predicate IsEscapedBody(body: string, quote: char)
    decreases |body|
  {
    || body == []
    || (|body| >= 2 && body[0] == '\\' && IsEscapedBody(body[2..], quote))
    || (body[0] != '\\' && body[0] != quote && IsEscapedBody(body[1..], quote))
  }

  /** An opening quote, a body and the closing quote that belongs to the opening one. */
  predicate IsQuotation(s: string) {
    |s| >= 2 &&
    var first, body, last := s[0], s[1..|s| - 1], s[|s| - 1];
    || (first == '"' && last == '"' && IsEscapedBody(body, '"'))
    || (first == '\'' && last == '\'' && IsEscapedBody(body, '\''))
    || (first == '`' && last == '`' && IsEscapedBody(body, '`'))
    || (first == '「' && last == '」' && '」' !in body)
    || (first == '『' && last == '』' && '』' !in body)
  }

  /** `s[n..m]` is the first quotation of `s`. */
  predicate QuotesAt(s: string, n: nat, m: nat) { n <= m <= |s| && IsUnquoted(s[..n]) && IsQuotation(s[n..m]) }

  /** At `n` is the first opening quote of `s`, and it is never closed. */
  predicate OpensAt(s: string, n: nat) {
    && n < |s| && IsUnquoted(s[..n]) && !IsUnquoted(s[n..n + 1])
    && forall m :: n <= m <= |s| ==> !IsQuotation(s[n..m])
  }

  lemma {:induction false} EscapedBodyEnds(s: string, quote: char, i: nat)
    requires Escapes(quote) && i < |s| && s[|s| - 1] == quote && IsEscapedBody(s[i..|s| - 1], quote)
    ensures LiteralEnd(s, quote, i, false) == Some(|s|)
    decreases |s| - i
  {
    var body := s[i..|s| - 1];
    if body != [] {
      assert body[0] == s[i];
      if body[0] == '\\' {
        assert body[2..] == s[i + 2..|s| - 1];
        EscapedBodyEnds(s, quote, i + 2);
        assert LiteralEnd(s, quote, i + 1, true) == LiteralEnd(s, quote, i + 2, false);
      } else {
        assert body[1..] == s[i + 1..|s| - 1];
        EscapedBodyEnds(s, quote, i + 1);
      }
    }
  }

  lemma {:induction false} EndedBodyIsEscaped(s: string, quote: char, i: nat, end: nat)
    requires Escapes(quote) && i <= |s| && LiteralEnd(s, quote, i, false) == Some(end)
    ensures i < end <= |s| && s[end - 1] == quote && IsEscapedBody(s[i..end - 1], quote)
    decreases |s| - i
  {
    if s[i] == '\\' {
      assert LiteralEnd(s, quote, i + 1, true) == Some(end) == LiteralEnd(s, quote, i + 2, false);
      EndedBodyIsEscaped(s, quote, i + 2, end);
      var body := s[i..end - 1];
      assert body[0] == s[i] && body[2..] == s[i + 2..end - 1];
    } else if s[i] != quote {
      EndedBodyIsEscaped(s, quote, i + 1, end);
      var body := s[i..end - 1];
      assert body[0] == s[i] && body[1..] == s[i + 1..end - 1];
    }
  }

  /** A literal without escapes ends at the first closing quote. */
  lemma {:induction false} UnescapedEnd(s: string, quote: char, i: nat, end: nat)
    requires !Escapes(quote) && i < end <= |s|
    ensures LiteralEnd(s, quote, i, false) == Some(end) <==> s[end - 1] == quote && quote !in s[i..end - 1]
    decreases |s| - i
  {
    var body := s[i..end - 1];
    if s[i] == quote {
      assert end > i + 1 ==> body[0] == quote;
    } else if i + 1 < end {
      UnescapedEnd(s, quote, i + 1, end);
      assert body == [s[i]] + s[i + 1..end - 1];
    } else if LiteralEnd(s, quote, i, false).Some? {
      assert LiteralEnd(s, quote, i + 1, false).value > i + 1;
    }
  }

  /** The quotations written out are the literals that the code closes. */
  lemma QuotationIsLiteral(s: string)
    ensures IsQuotation(s) <==> s != [] && Closer(s[0]).Some? && LiteralLength(s) == Some(|s|)
  {
    hide LiteralEnd, IsEscapedBody;
    if |s| >= 2 && Closer(s[0]).Some? {
      var quote := Closer(s[0]).value;
      if Escapes(quote) {
        if s[|s| - 1] == quote && IsEscapedBody(s[1..|s| - 1], quote) {
          EscapedBodyEnds(s, quote, 1);
        }
        if LiteralLength(s) == Some(|s|) {
          EndedBodyIsEscaped(s, quote, 1, |s|);
        }
      } else {
        UnescapedEnd(s, quote, 1, |s|);
      }
    }
  }

  lemma UnquotedHasNoOpener(s: string)
    ensures IsUnquoted(s) <==> NoOpener(s)
  {
  }

  lemma QuotationIsCopied(s: string, n: nat, m: nat, f: string -> string)
    requires QuotesAt(s, n, m)
    ensures Mapped(s, f) == f(s[..n]) + (s[n..m] + Mapped(s[m..], f))
  {
    hide Closer, IsUnquoted, NoOpener, IsQuotation, Segments, RewriteAll, Render, LiteralLength;
    var plain, literal, rest := s[..n], s[n..m], s[m..];
    UnquotedHasNoOpener(plain);
    QuotationIsLiteral(literal);
    SegmentsOf(plain, literal, rest);
    assert s == plain + (literal + rest);
    RenderCons(Plain(plain), [Literal(literal)] + Segments(rest), f);
    RenderCons(Literal(literal), Segments(rest), f);
  }

  lemma OpenQuotationIsCopied(s: string, n: nat, f: string -> string)
    requires OpensAt(s, n)
    ensures Mapped(s, f) == f(s[..n]) + s[n..]
  {
    var literal := s[n..];
    assert s[n..n + 1][0] == literal[0];
    UnquotedHasNoOpener(s[..n]);
    UnquotedHasNoOpener(s[n..n + 1]);
    NeverClosed(s, n);
    hide Closer, IsUnquoted, NoOpener, IsQuotation, Segments, RewriteAll, Render, LiteralLength;
    SegmentsOfOpen(s[..n], literal);
    assert s == s[..n] + literal;
    assert [Plain(s[..n]), Literal(literal)] == [Plain(s[..n])] + ([Literal(literal)] + []);
    RenderCons(Plain(s[..n]), [Literal(literal)] + [], f);
    RenderCons(Literal(literal), [], f);
    RenderNothing(f);
    assert literal + [] == literal;
  }

  lemma NeverClosed(s: string, n: nat)
    requires n < |s| && Closer(s[n]).Some?
    ensures (forall m :: n <= m <= |s| ==> !IsQuotation(s[n..m])) <==> LiteralLength(s[n..]).None?
  {
    hide LiteralEnd, IsQuotation, Closer;
    var rest := s[n..];
    var quote := Closer(rest[0]).value;
    if LiteralLength(rest).Some? {
      var end := LiteralLength(rest).value;
      LiteralEndOfPrefix(rest, end, quote, 1, false);
      QuotationIsLiteral(rest[..end]);
      assert rest[..end] == s[n..n + end];
    } else {
      forall m | n <= m <= |s| ensures !IsQuotation(s[n..m]) {
        QuotationIsLiteral(s[n..m]);
        if IsQuotation(s[n..m]) {
          assert s[n..m] + s[m..] == rest;
          LiteralEndStable(s[n..m], s[m..], quote, 1, false);
          assert false;
        }
      }
    }
  }

  lemma EveryTextIsCovered(s: string)
    ensures IsUnquoted(s) || (exists n: nat, m: nat :: QuotesAt(s, n, m)) || exists n: nat :: OpensAt(s, n)
  {
    var n := PlainLength(s);
    UnquotedHasNoOpener(s[..n]);
    if n == |s| {
      assert s[..n] == s;
    } else {
      assert s[n..n + 1][0] == s[n];
      UnquotedHasNoOpener(s[n..n + 1]);
      hide Closer, IsUnquoted, NoOpener, IsQuotation, LiteralLength;
      if m :| n <= m <= |s| && IsQuotation(s[n..m]) {
        assert QuotesAt(s, n, m);
      } else {
        assert OpensAt(s, n);
      }
    }
  }

  /** Every text is unquoted, or it has a first quotation, or a first quote that is never closed.
      Exactly the quotation is copied, the text in front is rewritten, and the text behind is
      treated in the same way. */
  lemma MappedExactly(s: string, f: string -> string)
    ensures IsUnquoted(s) ==> Mapped(s, f) == f(s)
    ensures forall n: nat, m: nat :: QuotesAt(s, n, m) ==> Mapped(s, f) == f(s[..n]) + (s[n..m] + Mapped(s[m..], f))
    ensures forall n: nat :: OpensAt(s, n) ==> Mapped(s, f) == f(s[..n]) + s[n..]
    ensures IsUnquoted(s) || (exists n: nat, m: nat :: QuotesAt(s, n, m)) || exists n: nat :: OpensAt(s, n)
  {
    hide Closer, IsUnquoted, NoOpener, IsQuotation, Mapped;
    UnquotedHasNoOpener(s);
    if IsUnquoted(s) {
      MappedPlain(s, f);
    }
    forall n: nat, m: nat | QuotesAt(s, n, m) ensures Mapped(s, f) == f(s[..n]) + (s[n..m] + Mapped(s[m..], f)) {
      QuotationIsCopied(s, n, m, f);
    }
    forall n: nat | OpensAt(s, n) ensures Mapped(s, f) == f(s[..n]) + s[n..] {
      OpenQuotationIsCopied(s, n, f);
    }
    EveryTextIsCovered(s);
  }

  // ---------- Collapsing spaces ----------

  predicate IsGap(c: char) { c == ' ' || c == '\t' }

  /** Runs of spaces and tabs become one space; `afterGap` says that one was just emitted. */
  function Collapsed(s: string, afterGap: bool): (r: string)
    ensures NoOpener(s) ==> NoOpener(r)
  {
    if s == [] then []
    else if IsGap(s[0]) then (if afterGap then [] else [' ']) + Collapsed(s[1..], true)
    else [s[0]] + Collapsed(s[1..], false)
  }

  lemma CollapsedStep(text: string, i: nat, afterGap: bool)
    requires i < |text|
    ensures Collapsed(text[i..], afterGap) ==
      (if IsGap(text[i]) then (if afterGap then [] else [' ']) else [text[i]]) +
        Collapsed(text[i + 1..], IsGap(text[i]))
  {
    assert text[i..][1..] == text[i + 1..];
  }

  method CollapsePlainSpaces(text: string) returns (compacted: string)
    ensures compacted == Collapsed(text, false)
  {
    hide Collapsed;
    compacted := "";
    var previousSpace := false;
    assert text[0..] == text;
    for i := 0 to |text|
      invariant Collapsed(text, false) == compacted + Collapsed(text[i..], previousSpace)
    {
      var character := text[i];
      CollapsedStep(text, i, previousSpace);
      if IsGap(character) {
        if !previousSpace {
          Associative(compacted, [' '], Collapsed(text[i + 1..], true));
          compacted := compacted + [' '];
          previousSpace := true;
        }
        continue;
      }
      Associative(compacted, [character], Collapsed(text[i + 1..], false));
      compacted := compacted + [character];
      previousSpace := false;
    }
    CollapsedNothing(previousSpace);
    assert text[|text|..] == "";
  }

  lemma CollapsedNothing(afterGap: bool)
    ensures Collapsed("", afterGap) == ""
  {
  }

  predicate IsNoGap(c: char) { !IsGap(c) }

  /** Without reference to single steps: every maximal run of spaces and tabs becomes one space. */
  function GapsAsSpaces(s: string): string
    decreases |s|
  {
    if s == [] then []
    else if IsGap(s[0]) then [' '] + GapsAsSpaces(s[LeadingRun(IsGap, s)..])
    else s[..LeadingRun(IsNoGap, s)] + GapsAsSpaces(s[LeadingRun(IsNoGap, s)..])
  }

  lemma {:induction false} CollapsedSkipsGap(s: string)
    ensures Collapsed(s, true) == Collapsed(s[LeadingRun(IsGap, s)..], false)
  {
    if s != [] && IsGap(s[0]) {
      CollapsedSkipsGap(s[1..]);
      DropTwice(s, 1, LeadingRun(IsGap, s));
    } else {
      assert s[0..] == s;
    }
  }

  lemma {:induction false} CollapsedCopies(s: string)
    ensures var n := LeadingRun(IsNoGap, s); Collapsed(s, false) == s[..n] + Collapsed(s[n..], false)
  {
    var n := LeadingRun(IsNoGap, s);
    if n > 0 {
      CollapsedCopies(s[1..]);
      DropTwice(s, 1, n);
      assert s[..n] == [s[0]] + s[1..][..n - 1];
      Associative([s[0]], s[1..][..n - 1], Collapsed(s[n..], false));
    } else {
      assert s[..0] == [] && s[0..] == s;
    }
  }

  /** The loop's result is the text with every maximal gap replaced by one space. */
  lemma {:induction false} CollapsedIsGapsAsSpaces(s: string)
    ensures Collapsed(s, false) == GapsAsSpaces(s)
    decreases |s|
  {
    if s != [] {
      if IsGap(s[0]) {
        CollapsedSkipsGap(s[1..]);
        DropTwice(s, 1, LeadingRun(IsGap, s));
        CollapsedIsGapsAsSpaces(s[LeadingRun(IsGap, s)..]);
      } else {
        CollapsedCopies(s);
        CollapsedIsGapsAsSpaces(s[LeadingRun(IsNoGap, s)..]);
      }
    }
  }

  predicate IsCompact(s: string) {
    && (forall i :: 0 <= i < |s| ==> s[i] != '\t')
    && (forall i :: 0 <= i < |s| - 1 ==> !(s[i] == ' ' && s[i + 1] == ' '))
  }

  /** The characters that are neither space nor tab. */
  function Visible(s: string): string {
    if s == [] then [] else (if s[0] == ' ' || s[0] == '\t' then [] else [s[0]]) + Visible(s[1..])
  }

  /** The result has no tab and no two spaces in a row, and all other characters in their order. */
  lemma {:induction false} CollapsedIsCompact(s: string, afterGap: bool)
    ensures IsCompact(Collapsed(s, afterGap)) && Visible(Collapsed(s, afterGap)) == Visible(s)
    ensures afterGap && Collapsed(s, afterGap) != [] ==> Collapsed(s, afterGap)[0] != ' '
  {
    if s != [] {
      var rest := Collapsed(s[1..], IsGap(s[0]));
      CollapsedIsCompact(s[1..], IsGap(s[0]));
      CompactCons(if IsGap(s[0]) then ' ' else s[0], rest);
      assert [] + rest == rest;
    }
  }

  lemma CompactCons(c: char, rest: string)
    requires IsCompact(rest) && c != '\t' && (c == ' ' && rest != [] ==> rest[0] != ' ')
    ensures IsCompact([c] + rest) && Visible([c] + rest) == (if IsGap(c) then [] else [c]) + Visible(rest)
  {
    var s := [c] + rest;
    assert forall i :: 0 < i < |s| ==> s[i] == rest[i - 1];
    assert s[1..] == rest;
  }

  function CollapseOnce(t: string): string { Collapsed(t, false) }

  lemma {:induction false} CollapsedTwice(s: string, afterGap: bool)
    ensures Collapsed(Collapsed(s, afterGap), afterGap) == Collapsed(s, afterGap)
  {
    if s != [] {
      var rest := Collapsed(s[1..], IsGap(s[0]));
      CollapsedTwice(s[1..], IsGap(s[0]));
      assert ([' '] + rest)[1..] == rest && ([s[0]] + rest)[1..] == rest;
      assert [] + rest == rest;
    }
  }

  method CollapseInlineSpaces(text: string) returns (output: string)
    ensures output == Mapped(text, CollapseOnce)
  {
    output := MapUnquotedSpans(text, CollapseOnce);
  }

  /** A rewrite that does nothing the second time does nothing the second time around literals. */
  lemma IdempotentRewrite(s: string, f: string -> string)
    requires AddsNoOpener(f) && forall t :: f(f(t)) == f(t)
    ensures Mapped(Mapped(s, f), f) == Mapped(s, f)
  {
    LiteralsSurvive(s, f);
    hide Segments;
    assert RewriteAll(RewriteAll(Segments(s), f), f) == RewriteAll(Segments(s), f);
  }

  lemma CollapseOnceIsEnough()
    ensures AddsNoOpener(CollapseOnce) && forall t :: CollapseOnce(CollapseOnce(t)) == CollapseOnce(t)
  {
    forall t: string ensures CollapseOnce(CollapseOnce(t)) == CollapseOnce(t) {
      CollapsedTwice(t, false);
    }
  }

  /** Collapsing spaces outside literals a second time changes nothing, and no literal is touched. */
  lemma CollapseIsIdempotent(s: string)
    ensures Mapped(Mapped(s, CollapseOnce), CollapseOnce) == Mapped(s, CollapseOnce)
    ensures Segments(Mapped(s, CollapseOnce)) == RewriteAll(Segments(s), CollapseOnce)
  {
    hide Segments, Mapped, RewriteAll;
    CollapseOnceIsEnough();
    LiteralsSurvive(s, CollapseOnce);
    IdempotentRewrite(s, CollapseOnce);
  }
}
