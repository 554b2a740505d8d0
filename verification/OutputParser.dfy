/** Finding the first complete JSON object in model output, and the text in front of a stop marker
    (runtime/backend/output_parser.rs, runtime/backend.rs). */
module OutputParser {
  import opened Sequences
  import opened Text

  // ---------- The scanner ----------

  /** Open braces, and whether the scanner is in a string and behind a backslash. */
  datatype Scanner = Scanner(depth: nat, inString: bool, escaped: bool)

  const OUTSIDE: Scanner := Scanner(0, false, false)

  function Scan(s: Scanner, c: char): Scanner {
    if s.inString then
      if s.escaped then s.(escaped := false)
      else if c == '\\' then s.(escaped := true)
      else if c == '"' then s.(inString := false)
      else s
    else if c == '"' then s.(inString := true)
    else if c == '{' then s.(depth := s.depth + 1)
    else if c == '}' then s.(depth := if s.depth == 0 then 0 else s.depth - 1)
    else s
  }

  function After(s: Scanner, text: string): Scanner
    decreases |text|
  {
    if text == [] then s else Scan(After(s, text[..|text| - 1]), text[|text| - 1])
  }

  lemma {:induction false} AfterJoined(s: Scanner, a: string, b: string)
    ensures After(s, a + b) == After(After(s, a), b)
    decreases |b|
  {
    if b == [] {
      assert a + b == a;
    } else {
      var n := |b| - 1;
      AfterJoined(s, a, b[..n]);
      assert (a + b)[..|a + b| - 1] == a + b[..n];
    }
  }

  /** A brace at the end of `text[start..e]` closes the last open one. */
  predicate Closes(text: string, start: nat, e: nat) {
    && start < e <= |text| && text[e - 1] == '}'
    && var s := After(OUTSIDE, text[start..e - 1]); !s.inString && s.depth <= 1
  }

  /** The first object of the text, from its first opening brace, ends at `e`. */
  ghost predicate EndsAt(text: string, e: nat) {
    var start := FindChar(text, '{');
    Closes(text, start, e) && forall k: nat :: k < e ==> !Closes(text, start, k)
  }

  ghost function ObjectEnd(text: string): (end: Option<nat>)
    ensures end.Some? ==> EndsAt(text, end.value) && 0 < end.value <= |text|
    ensures end.None? ==> forall e: nat :: !EndsAt(text, e)
  {
    if e: nat :| EndsAt(text, e) then Some(e) else None
  }

  lemma EndIsUnique(text: string, a: nat, b: nat)
    requires EndsAt(text, a) && EndsAt(text, b)
    ensures a == b
  {
    hide After;
  }

  method FirstCompleteJsonObjectEnd(output: string) returns (end: Option<nat>)
    ensures end == ObjectEnd(output)
  {
    hide After, ObjectEnd;
    var start := FindChar(output, '{');
    if start == |output| {
      assert forall e: nat :: !EndsAt(output, e);
      return None;
    }
    var depth: nat, inString, escaped := 0, false, false;
    var offset := start;
    StartsOutside(output, start);
    while offset < |output|
      invariant start <= offset <= |output|
      invariant After(OUTSIDE, output[start..offset]) == Scanner(depth, inString, escaped)
      invariant forall k: nat :: k <= offset ==> !Closes(output, start, k)
    {
      var character := output[offset];
      AfterOneMore(output, start, offset);
      if inString {
        if escaped {
          escaped := false;
        } else if character == '\\' {
          escaped := true;
        } else if character == '"' {
          inString := false;
        }
      } else {
        match character
        case '"' => inString := true;
        case '{' => depth := depth + 1;
        case '}' =>
          depth := if depth == 0 then 0 else depth - 1;
          if depth == 0 {
            assert EndsAt(output, offset + 1);
            ObjectEndIs(output, offset + 1);
            return Some(offset + 1);
          }
        case _ =>
      }
      offset := offset + 1;
    }
    NoEnd(output);
    end := None;
  }

  lemma StartsOutside(text: string, start: nat)
    requires start <= |text|
    ensures After(OUTSIDE, text[start..start]) == OUTSIDE
  {
  }

  lemma AfterOneMore(text: string, start: nat, k: nat)
    requires start <= k < |text|
    ensures After(OUTSIDE, text[start..k + 1]) == Scan(After(OUTSIDE, text[start..k]), text[k])
  {
    assert text[start..k + 1][..k - start] == text[start..k];
  }

  lemma ObjectEndIs(text: string, e: nat)
    requires EndsAt(text, e)
    ensures ObjectEnd(text) == Some(e)
  {
    hide EndsAt;
    EndIsUnique(text, e, ObjectEnd(text).value);
  }

  lemma NoEnd(text: string)
    requires forall k: nat :: k <= |text| ==> !Closes(text, FindChar(text, '{'), k)
    ensures ObjectEnd(text) == None
  {
    hide After;
  }

  /** Nothing behind the object matters. */
  lemma EndIsLocal(text: string, other: string, e: nat)
    requires EndsAt(text, e) && e <= |other| && other[..e] == text[..e]
    ensures EndsAt(other, e)
  {
    hide After;
    var start := FindChar(text, '{');
    SameFirstChar(text, other, e);
    forall k: nat | k <= e ensures Closes(text, start, k) == Closes(other, start, k) {
      if start < k {
        SamePrefix(text, other, start, k, e);
      }
    }
  }

  lemma SameFirstChar(text: string, other: string, e: nat)
    requires e <= |text| && e <= |other| && other[..e] == text[..e] && FindChar(text, '{') < e
    ensures FindChar(other, '{') == FindChar(text, '{')
  {
    var start := FindChar(text, '{');
    assert forall i :: 0 <= i < e ==> other[i] == other[..e][i] == text[i];
  }

  lemma SamePrefix(text: string, other: string, start: nat, k: nat, e: nat)
    requires start < k <= e <= |text| && e <= |other| && other[..e] == text[..e]
    ensures other[start..k - 1] == text[start..k - 1] && other[k - 1] == text[k - 1]
  {
    assert other[start..k - 1] == other[..e][start..k - 1] && text[start..k - 1] == text[..e][start..k - 1];
    assert other[k - 1] == other[..e][k - 1] && text[k - 1] == text[..e][k - 1];
  }

  // ---------- Stop markers ----------

  const STOP_MARKERS: seq<string> := ["<|im_end|>", "<|endoftext|>", "</s>"]

  predicate IsStopAt(text: string, i: nat) {
    exists k :: 0 <= k < |STOP_MARKERS| && Occurs(text, STOP_MARKERS[k], i)
  }

  function Earlier(a: Option<nat>, b: Option<nat>): Option<nat> {
    match (a, b)
    case (Some(i), Some(j)) => Some(if i <= j then i else j)
    case (None, _) => b
    case (_, None) => a
  }

  function FirstStop(text: string): Option<nat> {
    Earlier(Find(text, STOP_MARKERS[0]), Earlier(Find(text, STOP_MARKERS[1]), Find(text, STOP_MARKERS[2])))
  }

  /** The text in front of the first stop marker of any kind. */
  function TrimAfterStopMarker(text: string): (kept: string)
    ensures kept <= text && (kept != text ==> IsStopAt(text, |kept|))
    ensures forall i: nat :: i < |kept| ==> !IsStopAt(text, i)
  {
    FirstStopIsFirst(text);
    match FirstStop(text) case Some(i) => text[..i] case None => text
  }

  lemma FirstStopIsFirst(text: string)
    ensures FirstStop(text).Some? ==> FirstStop(text).value <= |text| && IsStopAt(text, FirstStop(text).value)
    ensures forall i: nat :: (FirstStop(text).Some? ==> i < FirstStop(text).value) ==> !IsStopAt(text, i)
  {
    hide Occurs;
    var r := FirstStop(text);
    if r.Some? {
      var k := if Find(text, STOP_MARKERS[0]) == r then 0 else if Find(text, STOP_MARKERS[1]) == r then 1 else 2;
      assert Find(text, STOP_MARKERS[k]) == r;
      OccursWithin(text, STOP_MARKERS[k], r.value);
    }
  }

  lemma OccursWithin(text: string, marker: string, i: nat)
    requires Occurs(text, marker, i)
    ensures i <= |text|
  {
  }

  // ---------- What is found stays found ----------

  /** The first complete object of the text in front of a stop marker, with what comes before it. */
  ghost function FirstObject(text: string): Option<string> {
    var stopped := TrimAfterStopMarker(text);
    match ObjectEnd(stopped) case Some(end) => Some(stopped[..end]) case None => None
  }

  method FindObject(text: string) returns (found: Option<string>)
    ensures found == FirstObject(text)
  {
    var stopped := TrimAfterStopMarker(text);
    var end := FirstCompleteJsonObjectEnd(stopped);
    found := match end case Some(e) => Some(stopped[..e]) case None => None;
  }

  lemma MarkerInside(text: string, more: string, marker: string, i: nat)
    requires Occurs(text + more, marker, i) && i + |marker| <= |text|
    ensures Occurs(text, marker, i)
  {
    assert text[i..i + |marker|] == (text + more)[i..i + |marker|];
  }

  lemma MarkerAcross(text: string, more: string, marker: string, i: nat, at: nat)
    requires Occurs(text + more, marker, i) && i <= at < |text| < i + |marker|
    ensures marker[at - i] == text[at]
  {
    assert (text + more)[i..i + |marker|][at - i] == (text + more)[at] == text[at];
  }

  /** No stop marker has a closing brace, so none that is still incomplete can reach into an object. */
  lemma StopWasThere(text: string, more: string, i: nat, e: nat)
    requires IsStopAt(text + more, i) && i < e <= |text| && text[e - 1] == '}'
    ensures IsStopAt(text, i)
  {
    hide Occurs;
    var k :| 0 <= k < |STOP_MARKERS| && Occurs(text + more, STOP_MARKERS[k], i);
    if i + |STOP_MARKERS[k]| <= |text| {
      MarkerInside(text, more, STOP_MARKERS[k], i);
    } else {
      MarkerAcross(text, more, STOP_MARKERS[k], i, e - 1);
      NoBraceInMarker(k, e - 1 - i);
    }
  }

  lemma StopStaysBehind(text: string, more: string, e: nat)
    requires 0 < e <= |TrimAfterStopMarker(text)| && text[e - 1] == '}'
    ensures e <= |TrimAfterStopMarker(text + more)|
  {
    hide FirstStop, IsStopAt;
    var i := |TrimAfterStopMarker(text + more)|;
    if i < e {
      StopWasThere(text, more, i, e);
    }
  }

  lemma NoBraceInMarker(k: nat, i: nat)
    requires k < |STOP_MARKERS| && i < |STOP_MARKERS[k]|
    ensures STOP_MARKERS[k][i] != '}'
  {
  }

  /** An object that was found stays the first one, whatever text is added. */
  lemma ObjectStays(text: string, more: string)
    requires FirstObject(text).Some?
    ensures FirstObject(text + more) == FirstObject(text)
  {
    hide EndsAt, ObjectEnd, IsStopAt, FirstStop;
    var stopped, later := TrimAfterStopMarker(text), TrimAfterStopMarker(text + more);
    var e := ObjectEnd(stopped).value;
    EndClosesBrace(stopped, e);
    StopStaysBehind(text, more, e);
    assert later[..e] == stopped[..e];
    EndIsLocal(stopped, later, e);
    ObjectEndIs(later, e);
  }

  lemma EndClosesBrace(text: string, e: nat)
    requires EndsAt(text, e)
    ensures 0 < e <= |text| && text[e - 1] == '}'
  {
    hide After;
  }
}
