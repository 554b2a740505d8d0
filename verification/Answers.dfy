/** What one generation answers: its text is read piece by piece and cut at the first complete JSON
    object, prompt and limit leave it no choice, and it is what the whole run would answer
    (runtime/backend.rs). */
module Answers {
  import opened Sequences
  import opened Text
  import opened Session
  import opened Utf8
  import opened OutputParser
  import ObjectGrammar

  /** What is passed on of a text: its first object if it has one, and nothing behind a stop marker. */
  ghost function Read(text: string): string {
    match FirstObject(text)
    case Some(cut) => Trim(TrimAfterStopMarker(cut))
    case None => Trim(TrimAfterStopMarker(text))
  }

  function TextOf(model: Model, tokens: seq<Token>): string { Lossy(Flatten(Pieces(model, tokens))) }

  /** `text` is what has come out after `tokens`; an unfinished character still waits. */
  ghost predicate Emits(model: Model, tokens: seq<Token>, text: string) {
    exists kept :: Drained(Flatten(Pieces(model, tokens)), text, kept)
  }

  lemma EmittedIsUnique(model: Model, tokens: seq<Token>, a: string, b: string)
    requires Emits(model, tokens, a) && Emits(model, tokens, b)
    ensures a == b
  {
    hide Drained, Flatten, Pieces;
    var keptA :| Drained(Flatten(Pieces(model, tokens)), a, keptA);
    var keptB :| Drained(Flatten(Pieces(model, tokens)), b, keptB);
    DrainedIsUnique(Flatten(Pieces(model, tokens)), a, keptA, b, keptB);
  }

  /** There was no object yet after any of the first `n` tokens. */
  ghost predicate NoObject(model: Model, tokens: seq<Token>, n: nat)
    requires n <= |tokens|
  {
    forall i, text :: 1 <= i <= n && Emits(model, tokens[..i], text) ==> FirstObject(text).None?
  }

  lemma OneMore(model: Model, tokens: seq<Token>, text: string)
    requires tokens != [] && NoObject(model, tokens, |tokens| - 1)
    requires Emits(model, tokens, text) && FirstObject(text).None?
    ensures NoObject(model, tokens, |tokens|)
  {
    hide Emits, FirstObject;
    forall i, other | 1 <= i <= |tokens| && Emits(model, tokens[..i], other)
      ensures FirstObject(other).None?
    {
      if i == |tokens| {
        assert tokens[..i] == tokens;
        EmittedIsUnique(model, tokens, text, other);
      }
    }
  }

  lemma NoObjectAt(model: Model, tokens: seq<Token>, first: seq<Token>, text: string)
    requires first <= tokens && first != [] && NoObject(model, tokens, |tokens|) && Emits(model, first, text)
    ensures FirstObject(text).None?
  {
    hide Emits, FirstObject;
    assert tokens[..|first|] == first;
  }

  lemma NoObjectExtends(model: Model, tokens: seq<Token>, token: Token)
    requires NoObject(model, tokens, |tokens|)
    ensures NoObject(model, tokens + [token], |tokens|)
  {
    hide Emits, FirstObject;
    assert forall i :: 1 <= i <= |tokens| ==> (tokens + [token])[..i] == tokens[..i];
  }

  /** The run was cut after `generated`, the first tokens whose text has an object. */
  ghost predicate IsCut(model: Model, prompt: seq<Token>, limit: nat, generated: seq<Token>,
                        text: string) {
    && IsGreedy(model, prompt, generated) && 0 < |generated| <= limit
    && NoObject(model, generated, |generated| - 1)
    && Emits(model, generated, text) && FirstObject(text).Some?
  }

  /** The run went on to its end. */
  ghost predicate IsWhole(model: Model, prompt: seq<Token>, limit: nat, generated: seq<Token>) {
    IsComplete(model, prompt, generated, limit) && NoObject(model, generated, |generated|)
  }

  /** `answer` is read from the text of `generated`. */
  ghost predicate IsReadFrom(model: Model, prompt: seq<Token>, limit: nat,
                             generated: seq<Token>, answer: string) {
    || (exists text :: IsCut(model, prompt, limit, generated, text) && answer == Read(text))
    || (IsWhole(model, prompt, limit, generated) && answer == Read(TextOf(model, generated)))
  }

  /** `answer` is what generating after `prompt` returns. */
  ghost predicate IsAnswer(model: Model, prompt: seq<Token>, limit: nat, answer: string) {
    exists generated :: IsReadFrom(model, prompt, limit, generated, answer)
  }

  // ---------- One prompt, one answer ----------

  lemma CutsAgree(model: Model, prompt: seq<Token>, limit: nat,
                  a: seq<Token>, textA: string, b: seq<Token>, textB: string)
    requires IsCut(model, prompt, limit, a, textA) && IsCut(model, prompt, limit, b, textB)
    requires |a| <= |b|
    ensures textA == textB
  {
    hide IsGreedy, Emits, FirstObject;
    GreedyIsDeterministic(model, prompt, a, b);
    assert b[..|a|] == a;
    if |a| == |b| {
      assert b[..|b|] == b;
      EmittedIsUnique(model, a, textA, textB);
    }
  }

  lemma CutIsNotWhole(model: Model, prompt: seq<Token>, limit: nat,
                      a: seq<Token>, text: string, b: seq<Token>)
    requires IsCut(model, prompt, limit, a, text)
    ensures !IsWhole(model, prompt, limit, b)
  {
    hide IsGreedy, Emits, FirstObject;
    if IsWhole(model, prompt, limit, b) {
      if |a| <= |b| {
        GreedyIsDeterministic(model, prompt, a, b);
        NoObjectAt(model, b, a, text);
      } else {
        GreedyIsDeterministic(model, prompt, b, a);
        GoesOn(model, prompt, b, a);
      }
    }
  }

  lemma CutReadsAgree(model: Model, prompt: seq<Token>, limit: nat,
                      a: seq<Token>, text: string, b: seq<Token>, x: string)
    requires IsCut(model, prompt, limit, a, text) && IsReadFrom(model, prompt, limit, b, x)
    ensures x == Read(text)
  {
    hide IsCut, IsWhole, Read;
    CutIsNotWhole(model, prompt, limit, a, text, b);
    var other :| IsCut(model, prompt, limit, b, other) && x == Read(other);
    if |a| <= |b| {
      CutsAgree(model, prompt, limit, a, text, b, other);
    } else {
      CutsAgree(model, prompt, limit, b, other, a, text);
    }
  }

  /** Model, prompt and limit determine the answer: there are not two of them. */
  lemma AnswerIsUnique(model: Model, prompt: seq<Token>, limit: nat, x: string, y: string)
    requires IsAnswer(model, prompt, limit, x) && IsAnswer(model, prompt, limit, y)
    ensures x == y
  {
    hide IsCut, IsWhole, Read;
    var a :| IsReadFrom(model, prompt, limit, a, x);
    var b :| IsReadFrom(model, prompt, limit, b, y);
    if text :| IsCut(model, prompt, limit, a, text) && x == Read(text) {
      CutReadsAgree(model, prompt, limit, a, text, b, y);
    } else if text :| IsCut(model, prompt, limit, b, text) && y == Read(text) {
      CutReadsAgree(model, prompt, limit, b, text, a, x);
    } else {
      WholeRunsAgree(model, prompt, limit, a, b);
    }
  }

  lemma WholeRunsAgree(model: Model, prompt: seq<Token>, limit: nat, a: seq<Token>, b: seq<Token>)
    requires IsWhole(model, prompt, limit, a) && IsWhole(model, prompt, limit, b)
    ensures a == b
  {
    hide IsComplete, NoObject;
    if |a| <= |b| {
      CompleteRunIsUnique(model, prompt, limit, a, b);
    } else {
      CompleteRunIsUnique(model, prompt, limit, b, a);
    }
  }

  // ---------- Stopping early changes nothing ----------

  lemma {:induction false} BytesGrow(model: Model, some: seq<Token>, all: seq<Token>) returns (more: seq<Byte>)
    requires some <= all
    ensures Flatten(Pieces(model, all)) == Flatten(Pieces(model, some)) + more
    decreases |all|
  {
    if some == all {
      more := [];
    } else {
      var n := |all| - 1;
      assert some <= all[..n];
      more := BytesGrow(model, some, all[..n]);
      assert Pieces(model, all)[..n] == Pieces(model, all[..n]);
      Associative(Flatten(Pieces(model, some)), more, Pieces(model, all)[n]);
      more := more + Pieces(model, all)[n];
    }
  }

  /** What has come out stays the beginning of the whole text. */
  lemma EmittedIsPrefix(model: Model, some: seq<Token>, all: seq<Token>, text: string)
    requires some <= all && Emits(model, some, text)
    ensures text <= TextOf(model, all)
  {
    hide Lossy, Flatten, Pieces, IsPending;
    var more := BytesGrow(model, some, all);
    var kept :| Drained(Flatten(Pieces(model, some)), text, kept);
    assert Lossy(Flatten(Pieces(model, some)) + more) == text + Lossy(kept + more);
  }

  lemma CutReadsWhole(model: Model, generated: seq<Token>, text: string, whole: seq<Token>)
    requires generated <= whole && Emits(model, generated, text) && FirstObject(text).Some?
    ensures Read(TextOf(model, whole)) == Read(text)
  {
    hide FirstObject, Emits, TextOf, TrimAfterStopMarker;
    EmittedIsPrefix(model, generated, whole, text);
    var all := TextOf(model, whole);
    assert all == text + all[|text|..];
    ObjectStays(text, all[|text|..]);
  }

  /** Where a complete run has an object for the first time, if anywhere. */
  lemma {:induction false} FirstCut(model: Model, tokens: seq<Token>, n: nat) returns (i: nat, text: string)
    requires n <= |tokens| && !NoObject(model, tokens, n)
    ensures 1 <= i <= n && NoObject(model, tokens, i - 1)
    ensures Emits(model, tokens[..i], text) && FirstObject(text).Some?
    decreases n
  {
    hide Emits, FirstObject;
    i, text :| 1 <= i <= n && Emits(model, tokens[..i], text) && FirstObject(text).Some?;
    if !NoObject(model, tokens, i - 1) {
      i, text := FirstCut(model, tokens, i - 1);
    }
  }

  lemma CutShort(model: Model, prompt: seq<Token>, limit: nat, whole: seq<Token>, i: nat, text: string)
    requires IsComplete(model, prompt, whole, limit) && 1 <= i <= |whole| && NoObject(model, whole, i - 1)
    requires Emits(model, whole[..i], text) && FirstObject(text).Some?
    ensures IsCut(model, prompt, limit, whole[..i], text)
  {
    hide Emits, FirstObject;
    assert forall j :: 0 <= j <= i ==> whole[..i][..j] == whole[..j];
  }

  /** When the run can be completed, the answer is the one read from its whole text: it makes no difference that
      the loop stops at the first object, or where the borders of the tokens are. */
  lemma AnswerIsOfWholeRun(model: Model, prompt: seq<Token>, limit: nat, whole: seq<Token>, answer: string)
    requires IsComplete(model, prompt, whole, limit)
    ensures IsAnswer(model, prompt, limit, answer) <==> answer == Read(TextOf(model, whole))
  {
    hide Emits, FirstObject, Read, TextOf, NoObject, IsCut, IsWhole;
    WholeRunAnswers(model, prompt, limit, whole);
    if IsAnswer(model, prompt, limit, answer) {
      AnswerIsUnique(model, prompt, limit, answer, Read(TextOf(model, whole)));
    }
  }

  lemma WholeRunAnswers(model: Model, prompt: seq<Token>, limit: nat, whole: seq<Token>)
    requires IsComplete(model, prompt, whole, limit)
    ensures IsAnswer(model, prompt, limit, Read(TextOf(model, whole)))
  {
    hide Emits, FirstObject, Read, TextOf, NoObject, IsComplete;
    var answer := Read(TextOf(model, whole));
    if NoObject(model, whole, |whole|) {
      assert IsReadFrom(model, prompt, limit, whole, answer);
    } else {
      var i, text := FirstCut(model, whole, |whole|);
      CutShort(model, prompt, limit, whole, i, text);
      CutReadsWhole(model, whole[..i], text, whole);
      assert IsReadFrom(model, prompt, limit, whole[..i], answer);
    }
  }

  // ---------- The answer in terms of the text ----------

  /** One of the three stop markers stands at `i`. */
  ghost predicate StopsAt(text: string, i: nat) {
    Occurs(text, "<|im_end|>", i) || Occurs(text, "<|endoftext|>", i) || Occurs(text, "</s>", i)
  }

  ghost predicate HasNoStop(text: string) { forall i: nat :: !StopsAt(text, i) }

  lemma StopMarkersAre(text: string, i: nat)
    ensures IsStopAt(text, i) <==> StopsAt(text, i)
  {
    hide Occurs;
    assert STOP_MARKERS[0] == "<|im_end|>" && STOP_MARKERS[1] == "<|endoftext|>" && STOP_MARKERS[2] == "</s>";
    if StopsAt(text, i) {
      var k := if Occurs(text, "<|im_end|>", i) then 0 else if Occurs(text, "<|endoftext|>", i) then 1 else 2;
      assert Occurs(text, STOP_MARKERS[k], i);
    }
  }

  /** `front` is the text up to its first stop marker, or all of it. */
  ghost predicate IsFront(front: string, text: string) {
    && front <= text && (front == text || StopsAt(text, |front|))
    && forall i: nat :: i < |front| ==> !StopsAt(text, i)
  }

  lemma FrontIsKept(front: string, text: string)
    requires IsFront(front, text)
    ensures TrimAfterStopMarker(text) == front
  {
    hide StopsAt, IsStopAt, FirstStop;
    var kept := TrimAfterStopMarker(text);
    if |kept| < |front| {
      StopMarkersAre(text, |kept|);
    } else if |front| < |kept| {
      StopMarkersAre(text, |front|);
    }
  }

  lemma NothingToTrim(text: string)
    requires HasNoStop(text)
    ensures TrimAfterStopMarker(text) == text
  {
    hide StopsAt, FirstStop, IsStopAt;
    StopMarkersAre(text, |TrimAfterStopMarker(text)|);
  }

  /** Prose without a brace, and then a text with balanced braces. */
  lemma ObjectIsFirst(prose: string, items: seq<ObjectGrammar.Item>)
    requires '{' !in prose && ObjectGrammar.WellFormed(ObjectGrammar.Braced(items))
    requires HasNoStop(prose + ObjectGrammar.Render(ObjectGrammar.Braced(items)))
    ensures var text := prose + ObjectGrammar.Render(ObjectGrammar.Braced(items)); FirstObject(text) == Some(text)
  {
    hide ObjectGrammar.WellFormed, ObjectEnd, StopsAt;
    var braced := ObjectGrammar.Render(ObjectGrammar.Braced(items));
    var text := prose + braced;
    NothingToTrim(text);
    assert braced[0] == '{' && text[|prose|] == '{' && forall i :: 0 <= i < |prose| ==> text[i] == prose[i];
    assert text[|prose|..|text|] == braced;
    ObjectGrammar.ObjectIsFound(text, items, |text|);
    assert text[..|text|] == text;
  }

  /** When the whole text of the run is prose without a brace, then text with balanced braces, then anything,
      the answer is the trimmed prose with the balanced text. */
  lemma ObjectIsAnswered(model: Model, prompt: seq<Token>, limit: nat, whole: seq<Token>, answer: string,
                         prose: string, items: seq<ObjectGrammar.Item>, more: string)
    requires IsComplete(model, prompt, whole, limit)
    requires '{' !in prose && ObjectGrammar.WellFormed(ObjectGrammar.Braced(items))
    requires HasNoStop(prose + ObjectGrammar.Render(ObjectGrammar.Braced(items)))
    requires TextOf(model, whole) == prose + ObjectGrammar.Render(ObjectGrammar.Braced(items)) + more
    ensures IsAnswer(model, prompt, limit, answer) <==>
      answer == Trim(prose + ObjectGrammar.Render(ObjectGrammar.Braced(items)))
  {
    hide IsComplete, IsAnswer, TextOf, FirstObject, Trim, TrimAfterStopMarker, HasNoStop, ObjectGrammar.Render;
    var text := prose + ObjectGrammar.Render(ObjectGrammar.Braced(items));
    ObjectIsFirst(prose, items);
    ObjectStays(text, more);
    NothingToTrim(text);
    AnswerIsOfWholeRun(model, prompt, limit, whole, answer);
  }

  /** No text with balanced braces begins with the first brace. */
  ghost predicate HoldsNoObject(text: string) {
    forall before, items, after ::
      text == JoinedText(before, items, after) && '{' !in before ==>
        !ObjectGrammar.WellFormed(ObjectGrammar.Braced(items))
  }

  ghost function JoinedText(before: string, items: seq<ObjectGrammar.Item>, after: string): string {
    before + ObjectGrammar.Render(ObjectGrammar.Braced(items)) + after
  }

  lemma FoundIsHeld(text: string, e: nat)
    requires ObjectEnd(text) == Some(e)
    ensures !HoldsNoObject(text)
  {
    hide ObjectGrammar.WellFormed, ObjectGrammar.Render, EndsAt, ObjectEnd;
    ObjectGrammar.FoundExactly(text, e);
    var start := FindChar(text, '{');
    var items :| ObjectGrammar.WellFormed(ObjectGrammar.Braced(items)) &&
      text[start..e] == ObjectGrammar.Render(ObjectGrammar.Braced(items));
    assert text == JoinedText(text[..start], items, text[e..]);
  }

  lemma NoObjectIsFound(text: string)
    requires HoldsNoObject(text)
    ensures ObjectEnd(text) == None
  {
    hide HoldsNoObject, EndsAt, ObjectEnd;
    if ObjectEnd(text).Some? {
      FoundIsHeld(text, ObjectEnd(text).value);
    }
  }

  /** When the text in front of its first stop marker holds no balanced braces, that text, trimmed, is the answer. */
  lemma PlainTextIsAnswered(model: Model, prompt: seq<Token>, limit: nat, whole: seq<Token>, answer: string,
                            front: string)
    requires IsComplete(model, prompt, whole, limit)
    requires IsFront(front, TextOf(model, whole)) && HoldsNoObject(front)
    ensures IsAnswer(model, prompt, limit, answer) <==> answer == Trim(front)
  {
    hide IsComplete, IsAnswer, TextOf, Trim, TrimAfterStopMarker, HoldsNoObject, ObjectEnd, IsFront;
    FrontIsKept(front, TextOf(model, whole));
    NoObjectIsFound(front);
    AnswerIsOfWholeRun(model, prompt, limit, whole, answer);
  }

  // ---------- Generating ----------

  datatype Answer<T> = Answered(value: T) | TimedOut | Failed

  /** Where the search stands when the completion has yielded `item` and `output` came before it. */
  ghost predicate IsSearching(completions: CompletionHandle, output: string, item: Option<Item>)
    reads completions, completions.session
  {
    var tokens := completions.generated;
    && completions.Valid() && (completions.finished ==> completions.pendingUtf8 == [])
    && match item
       case Some(Text(text)) =>
         && !completions.failed && completions.yielded == output + text && tokens != []
         && NoObject(completions.start.model, tokens, if completions.finished then |tokens| else |tokens| - 1)
       case Some(Failure) => true
       case None => HasEnded(completions, output)
  }

  ghost predicate HasEnded(completions: CompletionHandle, output: string)
    reads completions
  {
    && completions.finished && !completions.failed && completions.yielded == output
    && NoObject(completions.start.model, completions.generated, |completions.generated|)
    && (completions.generated == [] || FirstObject(output).None?)
  }

  /** An object in the text so far is the answer. */
  lemma FoundIsAnswer(completions: CompletionHandle, output: string, text: string)
    requires IsSearching(completions, output, Some(Text(text))) && FirstObject(output + text).Some?
    ensures IsAnswer(completions.start.model, completions.start.tokens, completions.limit,
      Read(output + text))
  {
    hide IsGreedy, FirstObject, IsComplete, NoObject, Flatten, Pieces, Read, Lossy, Drained, Ready;
    completions.GreedySoFar();
    if completions.finished {
      completions.EndedHandleEmittedEverything();
      assert IsReadFrom(completions.start.model, completions.start.tokens, completions.limit,
                        completions.generated, Read(output + text));
    } else {
      assert Drained(completions.Received(), output + text, completions.pendingUtf8);
      assert IsCut(completions.start.model, completions.start.tokens, completions.limit,
                   completions.generated, output + text);
      assert IsReadFrom(completions.start.model, completions.start.tokens, completions.limit,
                        completions.generated, Read(output + text));
    }
  }

  lemma EndIsAnswer(completions: CompletionHandle, output: string)
    requires IsSearching(completions, output, None)
    ensures IsAnswer(completions.start.model, completions.start.tokens, completions.limit,
                     Trim(TrimAfterStopMarker(output)))
  {
    hide IsGreedy, FirstObject, IsComplete, NoObject, Drained, Ready, Trim, TrimAfterStopMarker;
    completions.EndedHandleEmittedEverything();
    if completions.generated == [] {
      NoTokensNoText(completions.start.model);
      NothingToFind();
    }
    assert IsReadFrom(completions.start.model, completions.start.tokens, completions.limit,
                      completions.generated, Trim(TrimAfterStopMarker(output)));
  }

  lemma NoTokensNoText(model: Model)
    ensures TextOf(model, []) == ""
  {
  }

  lemma NothingToFind()
    ensures FirstObject("") == None
  {
  }

  /** Text without an object leaves the search where it can go on. */
  lemma NotFound(completions: CompletionHandle, output: string, text: string)
    requires IsSearching(completions, output, Some(Text(text))) && FirstObject(output + text).None?
    ensures NoObject(completions.start.model, completions.generated, |completions.generated|)
  {
    hide IsGreedy, FirstObject, IsComplete, NoObject, Flatten, Pieces, Lossy, Drained, Ready;
    if !completions.finished {
      assert Drained(completions.Received(), output + text, completions.pendingUtf8);
      OneMore(completions.start.model, completions.generated, output + text);
    }
  }

  /** Takes the next piece of a search that has found nothing in `output`. */
  method NextPiece(completions: CompletionHandle, output: string) returns (item: Option<Item>)
    requires completions.Valid() && !completions.failed && completions.yielded == output
    requires completions.finished ==> completions.pendingUtf8 == [] && completions.generated != []
    requires NoObject(completions.start.model, completions.generated, |completions.generated|)
    requires completions.generated == [] ==> output == ""
    requires completions.generated != [] ==> FirstObject(output).None?
    modifies completions, completions.session
    ensures IsSearching(completions, output, item)
    ensures old(completions.finished) ==> item.None?
    ensures !completions.finished ==> |completions.generated| == |old(completions.generated)| + 1
  {
    hide IsGreedy, FirstObject, IsComplete, NoObject, Flatten, Pieces, Lossy, Drained, Ready, CompletionHandle.Valid;
    ghost var before := completions.generated;
    item := completions.Next();
    if item.Some? && item.value.Text? {
      if completions.finished {
        if before == [] {
          completions.EndedHandleEmittedEverything();
          NoTokensNoText(completions.start.model);
        }
      } else {
        NoObjectExtends(completions.start.model, before, completions.generated[|before|]);
      }
    }
  }

  /** The texts that a completion yields are joined and searched after each. */
  method Generate(session: LlamaSession, maxTokens: nat, signal: AbortSignal)
    returns (answer: Answer<string>)
    requires Ready(session.State())
    modifies session
    ensures answer.Answered? ==>
      old(session.tokens) != [] && IsAnswer(session.model, old(session.tokens), maxTokens, answer.value)
  {
    hide Ready, FirstObject, NoObject, CompletionHandle.Valid, Drained, IsAnswer;
    var started := session.StartCompletingWith(maxTokens);
    if started.None? { return Failed; }
    var completions := started.value;
    var output := "";
    NothingYet(session.model);
    var item := NextPiece(completions, output);
    while item.Some?
      invariant fresh(completions) && completions.session == session
      invariant completions.start == old(session.State()) && completions.limit == maxTokens
      invariant IsSearching(completions, output, item)
      decreases if completions.finished then 0 else 1 + completions.limit - |completions.generated|,
        if item.Some? then 1 else 0
    {
      var aborted := signal.IsAborted();
      if aborted { return TimedOut; }
      if item.value.Failure? { return Failed; }
      var found := FindObject(output + item.value.text);
      if found.Some? {
        FoundIsAnswer(completions, output, item.value.text);
        aborted := signal.IsAborted();
        return if aborted then TimedOut else Answered(Trim(TrimAfterStopMarker(found.value)));
      }
      NotFound(completions, output, item.value.text);
      output := output + item.value.text;
      completions.GreedySoFar();
      item := NextPiece(completions, output);
    }
    EndIsAnswer(completions, output);
    var aborted := signal.IsAborted();
    if aborted { return TimedOut; }
    answer := Answered(Trim(TrimAfterStopMarker(output)));
  }

  lemma NothingYet(model: Model)
    ensures NoObject(model, [], 0)
  {
  }
}
