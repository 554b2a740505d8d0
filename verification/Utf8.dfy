/** Incremental UTF-8 decoding.  Well-formedness is section 4 of RFC 3629, the replacement of
    ill-formed input is the maximal-subpart rule of section 3.9 of the Unicode Standard. */
module Utf8 {
  import opened Sequences
  import opened Text

  type Byte = b: int | 0 <= b < 256

  type Bytes = seq<Byte>

  const REPLACEMENT: char := '\U{FFFD}'

  predicate IsTail(b: Byte) { 0x80 <= b <= 0xBF }

  /** One character of the grammar in section 4 of RFC 3629. */
  predicate IsCharacter(s: seq<Byte>) {
    || (|s| == 1 && s[0] <= 0x7F)
    || (|s| == 2 && 0xC2 <= s[0] <= 0xDF && IsTail(s[1]))
    || (|s| == 3 && IsTail(s[2]) && (
          || (s[0] == 0xE0 && 0xA0 <= s[1] <= 0xBF)
          || (0xE1 <= s[0] <= 0xEC && IsTail(s[1]))
          || (s[0] == 0xED && 0x80 <= s[1] <= 0x9F)
          || (0xEE <= s[0] <= 0xEF && IsTail(s[1]))))
    || (|s| == 4 && IsTail(s[2]) && IsTail(s[3]) && (
          || (s[0] == 0xF0 && 0x90 <= s[1] <= 0xBF)
          || (0xF1 <= s[0] <= 0xF3 && IsTail(s[1]))
          || (s[0] == 0xF4 && 0x80 <= s[1] <= 0x8F)))
  }

  /** A non-empty piece that more bytes could complete to a character, but that is not one yet. */
  ghost predicate IsUnfinished(s: seq<Byte>) {
    s != [] && exists more: seq<Byte> :: more != [] && IsCharacter(s + more)
  }

  /** Appends the six payload bits of a continuation byte. */
  function Join(high: int, tail: int): int { high * 0x40 + (tail - 0x80) }

  function Decode(s: seq<Byte>): (c: char)
    requires IsCharacter(s)
  {
    var lead: int := s[0];
    if |s| == 1 then lead as char
    else if |s| == 2 then Join(lead - 0xC0, s[1]) as char
    else if |s| == 3 then Join(Join(lead - 0xE0, s[1]), s[2]) as char
    else Join(Join(Join(lead - 0xF0, s[1]), s[2]), s[3]) as char
  }

  // ---------- What the standard library's validator reports ----------

  datatype Scan = Character(len: nat) | Invalid(len: nat) | Incomplete

  function Width(first: Byte): nat {
    if first <= 0x7F then 1
    else if 0xC2 <= first <= 0xDF then 2
    else if 0xE0 <= first <= 0xEF then 3
    else if 0xF0 <= first <= 0xF4 then 4
    else 0
  }

  predicate SecondByteAllowed(first: Byte, second: Byte) {
    if first == 0xE0 then 0xA0 <= second <= 0xBF
    else if first == 0xED then 0x80 <= second <= 0x9F
    else if first == 0xF0 then 0x90 <= second <= 0xBF
    else if first == 0xF4 then 0x80 <= second <= 0x8F
    else IsTail(second)
  }

  /** Looks at the bytes one at a time and stops at the first one that cannot continue. */
  function ScanFirst(s: seq<Byte>): (r: Scan)
    requires s != []
    ensures r.Character? ==> 0 < r.len <= |s| && IsCharacter(s[..r.len])
    ensures r.Invalid? ==> 0 < r.len <= |s|
    ensures r.Incomplete? ==> |s| < 4
  {
    var width := Width(s[0]);
    if width == 0 then Invalid(1)
    else if width == 1 then Character(1)
    else if |s| == 1 then Incomplete
    else if !SecondByteAllowed(s[0], s[1]) then Invalid(1)
    else if width == 2 then Character(2)
    else if |s| == 2 then Incomplete
    else if !IsTail(s[2]) then Invalid(2)
    else if width == 3 then Character(3)
    else if |s| == 3 then Incomplete
    else if !IsTail(s[3]) then Invalid(3)
    else Character(4)
  }

  /** Some bytes complete every scan that waits. */
  function Completion(s: seq<Byte>): (more: seq<Byte>)
    requires s != [] && ScanFirst(s).Incomplete?
    ensures more != [] && IsCharacter(s + more)
  {
    var second: Byte := if s[0] == 0xE0 then 0xA0 else if s[0] == 0xF0 then 0x90 else 0x80;
    if Width(s[0]) - |s| == 1 then
      if |s| == 1 then [second] else [0x80]
    else if Width(s[0]) - |s| == 2 then
      if |s| == 1 then [second, 0x80] else [0x80, 0x80]
    else [second, 0x80, 0x80]
  }

  lemma UnfinishedIsIncomplete(s: seq<Byte>)
    requires s != []
    ensures IsUnfinished(s) <==> ScanFirst(s).Incomplete?
  {
    if IsUnfinished(s) {
      var more :| more != [] && IsCharacter(s + more);
      assert forall i :: 0 <= i < |s| ==> (s + more)[i] == s[i];
    }
    if ScanFirst(s).Incomplete? {
      assert IsCharacter(s + Completion(s));
    }
  }

  /** The scan agrees with the grammar: it finds a character exactly when one starts here, waits
      exactly when the rest could still arrive, and otherwise skips the maximal subpart. */
  lemma ScanMeansGrammar(s: seq<Byte>, n: nat)
    requires s != [] && 0 < n <= |s|
    ensures ScanFirst(s) == Character(n) <==> IsCharacter(s[..n])
    ensures ScanFirst(s).Incomplete? <==> IsUnfinished(s)
    ensures ScanFirst(s) == Invalid(n) ==>
      && (n == 1 || IsUnfinished(s[..n]))
      && forall m :: n < m <= |s| ==> !IsUnfinished(s[..m])
  {
    UnfinishedIsIncomplete(s);
    if IsCharacter(s[..n]) {
      assert forall i :: 0 <= i < n ==> s[..n][i] == s[i];
    }
    if ScanFirst(s) == Invalid(n) {
      UnfinishedIsIncomplete(s[..n]);
      forall m | n < m <= |s| ensures !IsUnfinished(s[..m]) {
        UnfinishedIsIncomplete(s[..m]);
      }
    }
  }

  datatype Validation = Valid(text: string) | Error(validUpTo: nat, errorLen: Option<nat>)

  /** `std::str::from_utf8`. */
  function FromUtf8(s: seq<Byte>): (r: Validation)
    ensures r.Error? ==>
      && r.validUpTo < |s|
      && (r.errorLen.Some? ==> 0 < r.errorLen.value <= |s| - r.validUpTo)
  {
    if s == [] then Valid([])
    else match ScanFirst(s)
      case Character(n) => (
        match FromUtf8(s[n..])
        case Valid(text) => Valid([Decode(s[..n])] + text)
        case Error(upTo, len) => Error(n + upTo, len))
      case Invalid(n) => Error(0, Some(n))
      case Incomplete => Error(0, None)
  }

  // ---------- Specification ----------

  /** Decodes a whole byte string; every maximal subpart of an ill-formed piece becomes U+FFFD. */
  function Lossy(s: seq<Byte>): string {
    if s == [] then []
    else match ScanFirst(s)
      case Character(n) => [Decode(s[..n])] + Lossy(s[n..])
      case Invalid(n) => [REPLACEMENT] + Lossy(s[n..])
      case Incomplete => [REPLACEMENT]
  }

  ghost predicate IsPending(s: seq<Byte>) { s == [] || IsUnfinished(s) }

  /** `output` and `rest` are what a decoder may have emitted and kept after reading `s`, whatever
      comes next. */
  ghost predicate Drained(s: seq<Byte>, output: string, rest: seq<Byte>) {
    && IsPending(rest)
    && Progress(s, output, rest)
  }

  /** More bytes never change a scan that has already decided. */
  lemma ScanIsStable(s: seq<Byte>, more: seq<Byte>)
    requires s != [] && !ScanFirst(s).Incomplete?
    ensures ScanFirst(s + more) == ScanFirst(s)
  {
    assert forall i :: 0 <= i < |s| ==> (s + more)[i] == s[i];
  }

  function ValidLength(s: seq<Byte>): (n: nat)
    ensures n <= |s|
  {
    match FromUtf8(s) case Valid(_) => |s| case Error(upTo, _) => upTo
  }

  /** A scan that found a character needs no byte after it. */
  lemma ScanOfPrefix(s: seq<Byte>, n: nat)
    requires s != [] && ScanFirst(s).Character? && ScanFirst(s).len <= n <= |s|
    ensures n > 0 && ScanFirst(s[..n]) == ScanFirst(s)
  {
    assert forall i :: 0 <= i < n ==> s[..n][i] == s[i];
  }

  lemma ValidatorAtCharacter(s: seq<Byte>)
    requires s != [] && ScanFirst(s).Character?
    ensures ValidLength(s) == ScanFirst(s).len + ValidLength(s[ScanFirst(s).len..])
    ensures FromUtf8(s).Error? <==> FromUtf8(s[ScanFirst(s).len..]).Error?
    ensures FromUtf8(s).Error? ==> FromUtf8(s).errorLen == FromUtf8(s[ScanFirst(s).len..]).errorLen
    ensures FromUtf8(s).Valid? ==>
      FromUtf8(s).text == [Decode(s[..ScanFirst(s).len])] + FromUtf8(s[ScanFirst(s).len..]).text
  {
  }

  ghost predicate StopsAt(s: seq<Byte>, n: nat) {
    && n < |s|
    && FromUtf8(s).Error?
    && match ScanFirst(s[n..])
       case Character(_) => false
       case Invalid(k) => FromUtf8(s).errorLen == Some(k)
       case Incomplete => FromUtf8(s).errorLen == None
  }

  /** What the validator reports lies exactly at the first byte that starts no character. */
  lemma {:induction false} ValidPrefix(s: seq<Byte>)
    ensures FromUtf8(s[..ValidLength(s)]).Valid?
    ensures FromUtf8(s).Error? ==> StopsAt(s, ValidLength(s))
  {
    if s != [] && ScanFirst(s).Character? {
      hide ScanFirst, FromUtf8, StopsAt, Decode, IsCharacter, ValidLength;
      var k, n := ScanFirst(s).len, ValidLength(s);
      ValidatorAtCharacter(s);
      ValidPrefix(s[k..]);
      PrefixStaysValid(s, n);
      if FromUtf8(s).Error? {
        StopMoves(s, n);
      }
    } else {
      assert ValidLength(s) == 0 && s[..0] == [] && s[0..] == s;
    }
  }

  lemma PrefixStaysValid(s: seq<Byte>, n: nat)
    requires s != [] && ScanFirst(s).Character? && ScanFirst(s).len <= n <= |s|
    requires FromUtf8(s[ScanFirst(s).len..][..n - ScanFirst(s).len]).Valid?
    ensures FromUtf8(s[..n]).Valid?
  {
    hide ScanFirst, FromUtf8, Decode, IsCharacter, ValidLength;
    ScanOfPrefix(s, n);
    DropOfTake(s, ScanFirst(s).len, n);
    ValidatorAtCharacter(s[..n]);
  }

  lemma StopMoves(s: seq<Byte>, n: nat)
    requires s != [] && ScanFirst(s).Character? && ScanFirst(s).len <= n <= |s|
    requires FromUtf8(s).Error? && StopsAt(s[ScanFirst(s).len..], n - ScanFirst(s).len)
    ensures StopsAt(s, n)
  {
    hide ScanFirst, FromUtf8, Decode, IsCharacter, ValidLength;
    ValidatorAtCharacter(s);
    DropTwice(s, ScanFirst(s).len, n);
  }

  lemma LossyAtCharacter(s: seq<Byte>, more: seq<Byte>)
    requires s != [] && ScanFirst(s).Character?
    ensures var k := ScanFirst(s).len; Lossy(s + more) == [Decode(s[..k])] + Lossy(s[k..] + more)
  {
    ScanIsStable(s, more);
    SplitConcat(s, ScanFirst(s).len, more);
  }

  lemma LossyAtInvalid(s: seq<Byte>, more: seq<Byte>)
    requires s != [] && ScanFirst(s).Invalid?
    ensures Lossy(s + more) == [REPLACEMENT] + Lossy(s[ScanFirst(s).len..] + more)
  {
    ScanIsStable(s, more);
    SplitConcat(s, ScanFirst(s).len, more);
  }

  /** The characters of valid text are emitted as they are. */
  lemma {:induction false} LossyOfValid(s: seq<Byte>, more: seq<Byte>)
    requires FromUtf8(s).Valid?
    ensures Lossy(s + more) == FromUtf8(s).text + Lossy(more)
  {
    if s == [] {
      assert s + more == more;
    } else {
      ValidatorAtCharacter(s);
      var k := ScanFirst(s).len;
      var rest := s[k..];
      LossyOfValid(rest, more);
      LossyAtCharacter(s, more);
      Associative([Decode(s[..k])], FromUtf8(rest).text, Lossy(more));
    }
  }

  /** `buffer` has been read up to `rest`, and `output` is the text of the part that is gone. */
  ghost predicate Progress(buffer: seq<Byte>, output: string, rest: seq<Byte>) {
    forall more: seq<Byte> :: Lossy(buffer + more) == output + Lossy(rest + more)
  }

  lemma ProgressOverValid(buffer: seq<Byte>, output: string, rest: seq<Byte>, n: nat)
    requires Progress(buffer, output, rest)
    requires n <= |rest| && FromUtf8(rest[..n]).Valid?
    ensures Progress(buffer, output + FromUtf8(rest[..n]).text, rest[n..])
  {
    var text := FromUtf8(rest[..n]).text;
    forall more: seq<Byte> ensures Lossy(buffer + more) == output + text + Lossy(rest[n..] + more) {
      LossyOfValid(rest[..n], rest[n..] + more);
      Associative(rest[..n], rest[n..], more);
      TakeDrop(rest, n);
      Associative(output, text, Lossy(rest[n..] + more));
    }
  }

  lemma ProgressOverInvalid(buffer: seq<Byte>, output: string, rest: seq<Byte>)
    requires Progress(buffer, output, rest)
    requires rest != [] && ScanFirst(rest).Invalid?
    ensures Progress(buffer, output + [REPLACEMENT], rest[ScanFirst(rest).len..])
  {
    var n := ScanFirst(rest).len;
    forall more: seq<Byte>
      ensures Lossy(buffer + more) == output + [REPLACEMENT] + Lossy(rest[n..] + more)
    {
      LossyAtInvalid(rest, more);
      Associative(output, [REPLACEMENT], Lossy(rest[n..] + more));
    }
  }

  lemma NoProgress(buffer: seq<Byte>)
    ensures Progress(buffer, [], buffer)
  {
    forall more: seq<Byte> ensures Lossy(buffer + more) == [] + Lossy(buffer + more) {
    }
  }

  /** Emits every complete character of the buffer, replaces ill-formed pieces and keeps an
      unfinished tail. */
  method TakeCompleteUtf8(buffer: seq<Byte>) returns (output: string, rest: seq<Byte>)
    ensures Drained(buffer, output, rest)
    ensures |rest| <= |buffer| && rest == buffer[|buffer| - |rest|..]
  {
    hide FromUtf8, ScanFirst, Progress, IsUnfinished, Lossy;
    output, rest := [], buffer;
    NoProgress(buffer);
    while true
      invariant Progress(buffer, output, rest)
      invariant |rest| <= |buffer| && rest == buffer[|buffer| - |rest|..]
      decreases |rest|
    {
      var report := FromUtf8(rest);
      ValidPrefix(rest);
      ProgressOverValid(buffer, output, rest, ValidLength(rest));
      if report.Valid? {
        assert rest[..|rest|] == rest && rest[|rest|..] == [];
        output, rest := output + report.text, [];
        break;
      }
      var valid := report.validUpTo;
      if valid > 0 {
        var prefix := FromUtf8(rest[..valid]);
        output, rest := output + prefix.text, rest[valid..];
      } else {
        assert rest[..0] == [] && rest[0..] == rest && output + [] == output;
      }
      if report.errorLen.None? {
        UnfinishedIsIncomplete(rest);
        break;
      }
      ProgressOverInvalid(buffer, output, rest);
      output, rest := output + [REPLACEMENT], rest[report.errorLen.value..];
    }
  }

  // ---------- Whole streams ----------

  function Flatten<T>(pieces: seq<seq<T>>): seq<T> {
    if pieces == [] then [] else Flatten(pieces[..|pieces| - 1]) + pieces[|pieces| - 1]
  }

  /** Feeding `pieces` one by one emits `outputs`; `pending[i]` is kept before piece `i`. */
  ghost predicate IsStream(pieces: seq<seq<Byte>>, outputs: seq<string>, pending: seq<seq<Byte>>) {
    && |outputs| == |pieces| && |pending| == |pieces| + 1
    && pending[0] == []
    && forall i :: 0 <= i < |pieces| ==> Drained(pending[i] + pieces[i], outputs[i], pending[i + 1])
  }

  lemma {:induction false} StreamDrains(pieces: seq<seq<Byte>>, outputs: seq<string>, pending: seq<seq<Byte>>)
    requires IsStream(pieces, outputs, pending)
    ensures Drained(Flatten(pieces), Flatten(outputs), pending[|pieces|])
  {
    var n := |pieces|;
    if n == 0 {
      forall more: seq<Byte> ensures Lossy(Flatten(pieces) + more) == Flatten(outputs) + Lossy([] + more) {
        assert Flatten(pieces) + more == [] + more;
      }
    } else {
      var last, kept := pieces[n - 1], pending[n - 1];
      StreamDrains(pieces[..n - 1], outputs[..n - 1], pending[..n]);
      var earlier, text := Flatten(pieces[..n - 1]), Flatten(outputs[..n - 1]);
      forall more: seq<Byte>
        ensures Lossy(earlier + last + more) == text + outputs[n - 1] + Lossy(pending[n] + more)
      {
        Associative(earlier, last, more);
        Associative(kept, last, more);
        Associative(text, outputs[n - 1], Lossy(pending[n] + more));
      }
    }
  }

  lemma PendingIsShort(s: seq<Byte>)
    requires IsPending(s)
    ensures |s| <= 3 && Lossy(s) == if s == [] then [] else ['\U{FFFD}']
  {
    if s != [] {
      UnfinishedIsIncomplete(s);
    }
  }

  /** However a byte stream is cut into token pieces, the emitted strings followed by the final
      flush are the lossy decoding of the whole stream, and at most three bytes ever wait. */
  lemma StreamingIsChunkIndependent(pieces: seq<seq<Byte>>, outputs: seq<string>, pending: seq<seq<Byte>>)
    requires IsStream(pieces, outputs, pending)
    ensures Flatten(outputs) + Lossy(pending[|pieces|]) == Lossy(Flatten(pieces))
    ensures |pending[|pieces|]| <= 3
  {
    StreamDrains(pieces, outputs, pending);
    PendingIsShort(pending[|pieces|]);
    assert Flatten(pieces) + [] == Flatten(pieces) && pending[|pieces|] + [] == pending[|pieces|];
  }

  /** Bytes that complete a character decode to it alone. */
  lemma LossyOfCharacter(s: seq<Byte>)
    requires IsCharacter(s)
    ensures |Lossy(s)| == 1
  {
    var n := |s|;
    assert s[..n] == s && s[n..] == [];
    ScanMeansGrammar(s, n);
  }

  lemma LossyOfSome(s: seq<Byte>)
    requires s != []
    ensures Lossy(s) != []
  {
  }

  /** Whether a byte is still waiting shows in what may follow, so the same bytes cannot have been
      drained in two ways. */
  lemma WaitingShows(s: seq<Byte>, a: string, b: string, rest: seq<Byte>)
    requires Drained(s, a, []) && Drained(s, b, rest)
    ensures rest == []
  {
    if rest != [] {
      UnfinishedIsIncomplete(rest);
      var more := Completion(rest);
      assert s + [] == s && rest + [] == rest && [] + more == more;
      assert Lossy(s + []) == a + Lossy([] + []) && Lossy(s + []) == b + Lossy(rest + []);
      assert Lossy(s + more) == a + Lossy([] + more) && Lossy(s + more) == b + Lossy(rest + more);
      WaitingAddsOne(a, b, rest);
      CompletingAddsOne(a, b, rest, more);
    }
  }

  lemma WaitingAddsOne(a: string, b: string, rest: seq<Byte>)
    requires IsUnfinished(rest) && a + Lossy([]) == b + Lossy(rest)
    ensures |a| == |b| + 1
  {
    PendingIsShort(rest);
    assert |a + Lossy([])| == |a| && |b + [REPLACEMENT]| == |b| + 1;
  }

  lemma CompletingAddsOne(a: string, b: string, rest: seq<Byte>, more: seq<Byte>)
    requires IsCharacter(rest + more) && more != [] && a + Lossy(more) == b + Lossy(rest + more)
    ensures |a| <= |b|
  {
    LossyOfCharacter(rest + more);
    LossyOfSome(more);
    assert |a + Lossy(more)| == |b + Lossy(rest + more)|;
  }

  /** The bytes that were read determine what has been emitted. */
  lemma DrainedIsUnique(s: seq<Byte>, a: string, keptA: seq<Byte>, b: string, keptB: seq<Byte>)
    requires Drained(s, a, keptA) && Drained(s, b, keptB)
    ensures a == b
  {
    if keptA == [] && keptB != [] {
      WaitingShows(s, a, b, keptB);
    } else if keptA != [] && keptB == [] {
      WaitingShows(s, b, a, keptA);
    } else {
      PendingIsShort(keptA);
      PendingIsShort(keptB);
      assert s + [] == s && keptA + [] == keptA && keptB + [] == keptB;
      assert Lossy(s + []) == a + Lossy(keptA + []) && Lossy(s + []) == b + Lossy(keptB + []);
      hide Lossy;
      SameEnds(a, b, Lossy(keptA));
    }
  }

  lemma SameEnds(a: string, b: string, end: string)
    requires a + end == b + end
    ensures a == b
  {
    assert a == (a + end)[..|a|] && b == (b + end)[..|b|];
    assert |a + end| == |b + end|;
  }

  // ---------- The encoder the decoder inverts ----------

  function Encode(c: char): (s: seq<Byte>)
    ensures IsCharacter(s)
  {
    var n := c as int;
    if n < 0x80 then [n]
    else if n < 0x800 then [0xC0 + n / 0x40, 0x80 + n % 0x40]
    else if n < 0x10000 then [0xE0 + n / 0x40 / 0x40, 0x80 + n / 0x40 % 0x40, 0x80 + n % 0x40]
    else [0xF0 + n / 0x40 / 0x40 / 0x40, 0x80 + n / 0x40 / 0x40 % 0x40, 0x80 + n / 0x40 % 0x40, 0x80 + n % 0x40]
  }

  function EncodeText(text: string): seq<Byte> {
    if text == [] then [] else Encode(text[0]) + EncodeText(text[1..])
  }

  lemma JoinSplits(high: int, tail: int)
    requires 0x80 <= tail <= 0xBF
    ensures Join(high, tail) / 0x40 == high && Join(high, tail) % 0x40 == tail - 0x80
  {
  }

  lemma DecodeOfEncode(c: char)
    ensures Decode(Encode(c)) == c
  {
    var n := c as int;
    assert Join(n / 0x40, 0x80 + n % 0x40) == n;
    assert Join(n / 0x40 / 0x40, 0x80 + n / 0x40 % 0x40) == n / 0x40;
    assert Join(n / 0x40 / 0x40 / 0x40, 0x80 + n / 0x40 / 0x40 % 0x40) == n / 0x40 / 0x40;
  }

  /** Every scalar value has exactly one encoding: no overlong form is a character. */
  lemma EncodeOfDecode(s: seq<Byte>)
    requires IsCharacter(s)
    ensures Encode(Decode(s)) == s
  {
    if |s| == 2 {
      JoinSplits(s[0] - 0xC0, s[1]);
    } else if |s| == 3 {
      EncodeOfDecodedThree(s);
    } else if |s| == 4 {
      EncodeOfDecodedFour(s);
    }
  }

  lemma EncodeOfDecodedThree(s: seq<Byte>)
    requires IsCharacter(s) && |s| == 3
    ensures Encode(Decode(s)) == s
  {
    var lead: int := s[0];
    var high := Join(lead - 0xE0, s[1]);
    JoinSplits(lead - 0xE0, s[1]);
    JoinSplits(high, s[2]);
    hide Join;
  }

  lemma EncodeOfDecodedFour(s: seq<Byte>)
    requires IsCharacter(s) && |s| == 4
    ensures Encode(Decode(s)) == s
  {
    var lead: int := s[0];
    var middle := Join(lead - 0xF0, s[1]);
    var high := Join(middle, s[2]);
    JoinSplits(lead - 0xF0, s[1]);
    JoinSplits(middle, s[2]);
    JoinSplits(high, s[3]);
  }

  lemma {:induction false} EncodedTextIsValid(text: string)
    ensures FromUtf8(EncodeText(text)) == Valid(text)
  {
    if text != [] {
      var first, rest := Encode(text[0]), EncodeText(text[1..]);
      var s := first + rest;
      assert s[..|first|] == first && s[|first|..] == rest;
      ScanMeansGrammar(s, |first|);
      DecodeOfEncode(text[0]);
      EncodedTextIsValid(text[1..]);
    }
  }

  /** Text that was encoded, cut anywhere and decoded piece by piece comes back unchanged. */
  lemma StreamedTextRoundTrips(text: string, pieces: seq<seq<Byte>>, outputs: seq<string>, pending: seq<seq<Byte>>)
    requires IsStream(pieces, outputs, pending) && Flatten(pieces) == EncodeText(text)
    ensures Flatten(outputs) + Lossy(pending[|pieces|]) == text
  {
    StreamingIsChunkIndependent(pieces, outputs, pending);
    EncodedTextIsValid(text);
    LossyOfValid(EncodeText(text), []);
    assert EncodeText(text) + [] == EncodeText(text);
  }
}
