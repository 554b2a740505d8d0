/** Reading one request from a stream that delivers it in pieces (`read_request` in ui/web/src/lib.rs). */
module HttpRequest {
  import opened Sequences
  import opened Utf8
  import opened HttpSyntax

  const BLANK_LINE: Bytes := [13, 10, 13, 10]

  const READ_SIZE: nat := 4096

  predicate BlankLineAt(s: Bytes, i: nat) {
    i + 4 <= |s| && s[i] == 13 && s[i + 1] == 10 && s[i + 2] == 13 && s[i + 3] == 10
  }

  datatype Position = NotFound | At(index: nat)

  function FindHeaderEndFrom(s: Bytes, from: nat): (r: Position)
    requires from <= |s|
    ensures r.At? ==> from <= r.index && BlankLineAt(s, r.index) && forall i :: from <= i < r.index ==>
      !BlankLineAt(s, i)
    ensures r.NotFound? ==> forall i :: from <= i ==> !BlankLineAt(s, i)
    decreases |s| - from
  {
    if BlankLineAt(s, from) then At(from)
    else if from == |s| then NotFound
    else FindHeaderEndFrom(s, from + 1)
  }

  /** The first blank line. */
  function FindHeaderEnd(s: Bytes): (r: Position)
    ensures r.At? ==> BlankLineAt(s, r.index) && forall i :: 0 <= i < r.index ==> !BlankLineAt(s, i)
    ensures r.NotFound? ==> forall i :: 0 <= i ==> !BlankLineAt(s, i)
  {
    FindHeaderEndFrom(s, 0)
  }

  // ---------- The reader as a machine that is fed one read at a time ----------

  datatype Request = Request(method_: string, path: string, headers: map<string, string>, body: Bytes)

  datatype State = InHead(buffer: Bytes) | InBody(head: Head, body: Bytes) | Done(result: Result<Request>)

  function Completed(head: Head, body: Bytes): State {
    Done(Ok(Request(head.method_, head.path, head.headers, body)))
  }

  /** What follows once the blank line has arrived at `end`. */
  function AfterHead(buffer: Bytes, end: nat): State
    requires end + 4 <= |buffer|
  {
    if end > MAX_HEADER_BYTES then Done(Err(HeadersTooLarge))
    else
      match ParseHead(buffer[..end])
      case Err(error) => Done(Err(error))
      case Ok(head) =>
        var body := buffer[end + 4..];
        if |body| > head.length then Done(Err(MultipleRequests))
        else if |body| == head.length then Completed(head, body)
        else InBody(head, body)
  }

  function Step(state: State, chunk: Bytes): State {
    match state
    case InHead(buffer) => (
      var more := buffer + chunk;
      match FindHeaderEnd(more)
      case At(end) => AfterHead(more, end)
      case NotFound => if |more| > MAX_HEADER_BYTES then Done(Err(HeadersTooLarge)) else InHead(more))
    case InBody(head, body) =>
      if |body| + |chunk| > head.length then Done(Err(BodyExceedsLength))
      else if |body| + |chunk| == head.length then Completed(head, body + chunk)
      else InBody(head, body + chunk)
    case Done(_) => state
  }

  function Run(state: State, chunks: seq<Bytes>): State
    decreases |chunks|
  {
    if chunks == [] then state else Run(Step(state, chunks[0]), chunks[1..])
  }

  /** How a stream ends: closed by the peer, timed out, or with another error. */
  datatype Ending = Closed | Expired | Broken

  function AtEnd(ending: Ending, incomplete: Error): Error {
    match ending
    case Closed => incomplete
    case Expired => TimedOut
    case Broken => ReadFailed
  }

  function Finish(state: State, ending: Ending): Result<Request> {
    match state
    case InHead(_) => Err(AtEnd(ending, IncompleteHeaders))
    case InBody(_, _) => Err(AtEnd(ending, IncompleteBody))
    case Done(result) => result
  }

  // ---------- The loop of the source ----------

  datatype Read = Data(bytes: Bytes) | End(ending: Ending)

  predicate IsDelivery(chunks: seq<Bytes>) { forall i :: 0 <= i < |chunks| ==> 0 < |chunks[i]| <= READ_SIZE }

  class Stream {
    var chunks: seq<Bytes>
    const ending: Ending

    constructor (chunks: seq<Bytes>, ending: Ending)
      ensures this.chunks == chunks && this.ending == ending
    {
      this.chunks, this.ending := chunks, ending;
    }

    method Next() returns (r: Read)
      modifies this
      ensures old(chunks) == [] ==> r == End(ending) && chunks == []
      ensures old(chunks) != [] ==> r == Data(old(chunks)[0]) && chunks == old(chunks)[1..]
    {
      if chunks == [] {
        return End(ending);
      }
      r := Data(chunks[0]);
      chunks := chunks[1..];
    }
  }

  /** Reads the header block; `end` is where its blank line starts. */
  method ReadHead(stream: Stream) returns (r: Result<Bytes>, end: nat)
    modifies stream
    ensures r.Ok? ==>
      && FindHeaderEnd(r.value) == At(end)
      && Run(InHead([]), old(stream.chunks)) == Run(AfterHead(r.value, end), stream.chunks)
    ensures r.Err? ==> Finish(Run(InHead([]), old(stream.chunks)), stream.ending) == Err(r.error)
    ensures |stream.chunks| <= |old(stream.chunks)|
  {
    hide ParseHead, FindHeaderEnd;
    var buffer: Bytes := [];
    end := 0;
    while true
      invariant Run(InHead([]), old(stream.chunks)) == Run(InHead(buffer), stream.chunks)
      invariant |stream.chunks| <= |old(stream.chunks)|
      decreases |stream.chunks|
    {
      ghost var before := stream.chunks;
      var read := stream.Next();
      match read {
        case End(ending) =>
          return Err(AtEnd(ending, IncompleteHeaders)), 0;
        case Data(bytes) =>
          RunUnfolds(InHead(buffer), before);
          buffer := buffer + bytes;
      }
      var found := FindHeaderEnd(buffer);
      if found.At? {
        return Ok(buffer), found.index;
      }
      if |buffer| > MAX_HEADER_BYTES {
        RunOfDone(Err(HeadersTooLarge), stream.chunks);
        return Err(HeadersTooLarge), 0;
      }
    }
  }

  method ReadBody(stream: Stream, head: Head, start: Bytes) returns (r: Result<Request>)
    requires |start| <= head.length
    modifies stream
    ensures r == Finish(Run(if |start| == head.length then Completed(head, start) else InBody(head, start),
      old(stream.chunks)), stream.ending)
  {
    var body := start;
    ghost var whole := if |start| == head.length then Completed(head, start) else InBody(head, start);
    while |body| < head.length
      invariant |body| <= head.length
      invariant Run(whole, old(stream.chunks)) ==
        Run(if |body| == head.length then Completed(head, body) else InBody(head, body), stream.chunks)
      decreases |stream.chunks|
    {
      ghost var before := stream.chunks;
      var read := stream.Next();
      match read {
        case End(ending) =>
          return Err(AtEnd(ending, IncompleteBody));
        case Data(bytes) =>
          RunUnfolds(InBody(head, body), before);
          if |body| + |bytes| > head.length {
            RunOfDone(Err(BodyExceedsLength), stream.chunks);
            return Err(BodyExceedsLength);
          }
          body := body + bytes;
      }
    }
    r := Ok(Request(head.method_, head.path, head.headers, body));
    RunOfDone(r, stream.chunks);
  }

  method ReadRequest(stream: Stream) returns (r: Result<Request>)
    modifies stream
    ensures r == Finish(Run(InHead([]), old(stream.chunks)), stream.ending)
  {
    hide ParseHead, FindHeaderEnd;
    var read, end := ReadHead(stream);
    match read {
      case Err(error) =>
        return Err(error);
      case Ok(buffer) =>
        ghost var rest := stream.chunks;
        if end > MAX_HEADER_BYTES {
          RunOfDone(Err(HeadersTooLarge), rest);
          return Err(HeadersTooLarge);
        }
        match ParseHead(buffer[..end]) {
          case Err(error) =>
            RunOfDone(Err(error), rest);
            return Err(error);
          case Ok(head) =>
            var body := buffer[end + 4..];
            if |body| > head.length {
              RunOfDone(Err(MultipleRequests), rest);
              return Err(MultipleRequests);
            }
            r := ReadBody(stream, head, body);
        }
    }
  }

  lemma RunUnfolds(state: State, chunks: seq<Bytes>)
    requires chunks != []
    ensures Run(state, chunks) == Run(Step(state, chunks[0]), chunks[1..])
  {
  }

  lemma {:induction false} RunOfDone(result: Result<Request>, chunks: seq<Bytes>)
    ensures Run(Done(result), chunks) == Done(result)
    decreases |chunks|
  {
    if chunks != [] {
      RunOfDone(result, chunks[1..]);
    }
  }

  lemma {:induction false} RunOfConcat(state: State, first: seq<Bytes>, more: seq<Bytes>)
    ensures Run(state, first + more) == Run(Run(state, first), more)
    decreases |first|
  {
    if first == [] {
      assert first + more == more;
    } else {
      assert (first + more)[0] == first[0] && (first + more)[1..] == first[1..] + more;
      RunOfConcat(Step(state, first[0]), first[1..], more);
    }
  }

  // ---------- The reader's state as a function of the bytes alone ----------

  /** The state after the bytes `s`, without reference to how they arrived. */
  function StateAfter(s: Bytes): State {
    match FindHeaderEnd(s)
    case At(end) => AfterHead(s, end)
    case NotFound => if |s| > MAX_HEADER_BYTES then Done(Err(HeadersTooLarge)) else InHead(s)
  }

  /** The blank line is one that a read can meet either before or after the size limit. */
  predicate InWindow(s: Bytes) {
    var found := FindHeaderEnd(s);
    found.At? && MAX_HEADER_BYTES - 3 < found.index <= MAX_HEADER_BYTES
  }

  /** The declared end of the request, when its header block is accepted. */
  function RequestEnd(s: Bytes): (r: Position)
    ensures r.At? ==> FindHeaderEnd(s).At? && FindHeaderEnd(s).index + 4 <= r.index
  {
    match FindHeaderEnd(s)
    case NotFound => NotFound
    case At(end) =>
      if end > MAX_HEADER_BYTES then NotFound
      else
        match ParseHead(s[..end])
        case Err(_) => NotFound
        case Ok(head) => At(end + 4 + head.length)
  }

  /** Bytes follow the declared end of the request. */
  predicate HasExcess(s: Bytes) { RequestEnd(s).At? && |s| > RequestEnd(s).index }

  /** More bytes do not move a blank line that has arrived. */
  lemma HeaderEndStays(s: Bytes, more: Bytes)
    ensures FindHeaderEnd(s).At? ==> FindHeaderEnd(s + more) == FindHeaderEnd(s)
    ensures FindHeaderEnd(s).NotFound? && FindHeaderEnd(s + more).At? ==> |s| < FindHeaderEnd(s + more).index + 4
  {
    var whole := s + more;
    assert forall i :: 0 <= i < |s| ==> whole[i] == s[i];
    assert forall i :: 0 <= i && i + 4 <= |s| ==> BlankLineAt(whole, i) == BlankLineAt(s, i);
  }

  lemma HeaderEndOfPrefix(s: Bytes, n: nat)
    requires n <= |s|
    ensures FindHeaderEnd(s[..n]) ==
      if FindHeaderEnd(s).At? && FindHeaderEnd(s).index + 4 <= n then FindHeaderEnd(s) else NotFound
  {
    hide FindHeaderEnd;
    TakeDrop(s, n);
    HeaderEndStays(s[..n], s[n..]);
  }

  /** One read takes the state after `s` to the state after `s + chunk`. */
  lemma StepIsStateAfter(s: Bytes, chunk: Bytes)
    requires chunk != [] && !InWindow(s + chunk) && !HasExcess(s + chunk)
    ensures Step(StateAfter(s), chunk) == StateAfter(s + chunk)
  {
    hide ParseHead, FindHeaderEnd;
    HeaderEndStays(s, chunk);
    var found := FindHeaderEnd(s);
    if found.At? {
      var end := found.index;
      DropOfTake(s + chunk, 0, end);
      assert (s + chunk)[..end] == s[..end];
      SplitConcat(s, end + 4, chunk);
    }
  }

  /** However the bytes arrive, the reader ends in the state that the bytes alone determine. */
  lemma {:induction false} RunIsStateAfter(chunks: seq<Bytes>)
    requires IsDelivery(chunks) && !InWindow(Flatten(chunks)) && !HasExcess(Flatten(chunks))
    ensures Run(InHead([]), chunks) == StateAfter(Flatten(chunks))
    decreases |chunks|
  {
    hide InWindow, HasExcess, StateAfter;
    if chunks == [] {
      NothingRead();
    } else {
      var n := |chunks| - 1;
      var earlier := chunks[..n];
      StaysOutside(Flatten(earlier), chunks[n]);
      RunIsStateAfter(earlier);
      StepIsStateAfter(Flatten(earlier), chunks[n]);
      TakeDrop(chunks, n);
      assert chunks[n..] == [chunks[n]];
      RunOfConcat(InHead([]), earlier, [chunks[n]]);
      RunOfOne(Run(InHead([]), earlier), chunks[n]);
    }
  }

  lemma NothingRead()
    ensures StateAfter([]) == InHead([]) && Run(InHead([]), []) == InHead([])
  {
  }

  lemma RunOfOne(state: State, chunk: Bytes)
    ensures Run(state, [chunk]) == Step(state, chunk)
  {
    assert [chunk][1..] == [];
  }

  lemma StaysOutside(s: Bytes, more: Bytes)
    ensures InWindow(s) ==> InWindow(s + more)
    ensures HasExcess(s) ==> HasExcess(s + more)
  {
    hide ParseHead, FindHeaderEnd;
    HeaderEndStays(s, more);
    if FindHeaderEnd(s).At? {
      assert (s + more)[..FindHeaderEnd(s).index] == s[..FindHeaderEnd(s).index];
    }
  }

  // ---------- Exactly when the pieces do not matter ----------

  /** Every delivery of the same bytes gives the same result. */
  ghost predicate IsFragmentationIndependent(s: Bytes, ending: Ending) {
    forall a: seq<Bytes>, b: seq<Bytes> :: IsDelivery(a) && IsDelivery(b) && Flatten(a) == s && Flatten(b) == s ==>
      Finish(Run(InHead([]), a), ending) == Finish(Run(InHead([]), b), ending)
  }

  function Singles(s: Bytes): (chunks: seq<Bytes>)
    ensures IsDelivery(chunks) && Flatten(chunks) == s
  {
    if s == [] then []
    else
      TakeDrop(s, |s| - 1);
      Singles(s[..|s| - 1]) + [s[|s| - 1..]]
  }

  /** A delivery of `s` byte by byte, except that the bytes between `i` and `j` come in one read. */
  function Jumping(s: Bytes, i: nat, j: nat): (chunks: seq<Bytes>)
    requires i < j <= |s| && j - i <= READ_SIZE
    ensures IsDelivery(chunks) && Flatten(chunks) == s
  {
    FlattenOfConcat(Singles(s[..i]), [s[i..j]]);
    FlattenOfConcat(Singles(s[..i]) + [s[i..j]], Singles(s[j..]));
    FlattenOfOne(s[i..j]);
    TakeMore(s, i, j);
    TakeDrop(s, j);
    Singles(s[..i]) + [s[i..j]] + Singles(s[j..])
  }

  lemma FlattenOfOne(s: Bytes)
    ensures Flatten([s]) == s
  {
    assert [s][..0] == [];
  }

  lemma {:induction false} FlattenOfConcat(a: seq<Bytes>, b: seq<Bytes>)
    ensures Flatten(a + b) == Flatten(a) + Flatten(b)
    decreases |b|
  {
    if b == [] {
      assert a + b == a;
    } else {
      var n := |b| - 1;
      assert (a + b)[..|a| + n] == a + b[..n] && (a + b)[|a| + n] == b[n];
      FlattenOfConcat(a, b[..n]);
      Associative(Flatten(a), Flatten(b[..n]), b[n]);
    }
  }

  /** Byte by byte up to `i`, then to `j` in one read: the reader is where that read puts it. */
  lemma RunOfJump(s: Bytes, i: nat, j: nat)
    requires i < j <= |s| && j - i <= READ_SIZE
    requires !InWindow(s[..i]) && !HasExcess(s[..i])
    ensures Run(InHead([]), Jumping(s, i, j)) == Run(Step(StateAfter(s[..i]), s[i..j]), Singles(s[j..]))
  {
    hide InWindow, HasExcess, StateAfter, Step, Flatten, Singles;
    RunIsStateAfter(Singles(s[..i]));
    RunOfConcat(InHead([]), Singles(s[..i]), [s[i..j]]);
    RunOfOne(StateAfter(s[..i]), s[i..j]);
    RunOfConcat(InHead([]), Singles(s[..i]) + [s[i..j]], Singles(s[j..]));
  }

  lemma {:induction false} NeverTooLarge(state: State, chunks: seq<Bytes>, ending: Ending)
    requires !state.InHead? && state != Done(Err(HeadersTooLarge))
    ensures Finish(Run(state, chunks), ending) != Err(HeadersTooLarge)
    decreases |chunks|
  {
    if chunks != [] {
      NeverTooLarge(Step(state, chunks[0]), chunks[1..], ending);
    }
  }

  /** The client sees status 431. */
  predicate AnswersTooLarge(result: Result<Request>) { result.Err? && Status(result.error) == 431 }

  /** Some delivery of the bytes is answered with status 431, or some is not. */
  ghost predicate SomeDelivery(s: Bytes, ending: Ending, tooLarge: bool) {
    exists a: seq<Bytes> :: IsDelivery(a) && Flatten(a) == s
      && AnswersTooLarge(Finish(Run(InHead([]), a), ending)) == tooLarge
  }

  lemma StatusTellsTooLarge(result: Result<Request>)
    ensures AnswersTooLarge(result) <==> result == Err(HeadersTooLarge)
  {
  }

  /** A stream that ends before the request is complete is answered with status 408 when it timed out, and
      with status 400 otherwise. */
  lemma EarlyEndIsRefused(chunks: seq<Bytes>, ending: Ending)
    requires !Run(InHead([]), chunks).Done?
    ensures var result := Finish(Run(InHead([]), chunks), ending);
      result.Err? && Status(result.error) == if ending.Expired? then 408 else 400
  {
    hide Run;
  }

  /** A read may end in the middle of the blank line, beyond the limit, or it may jump over it: the
      client gets status 431 in the one case and not in the other. */
  lemma WindowDepends(s: Bytes, ending: Ending)
    requires InWindow(s)
    ensures SomeDelivery(s, ending, true) && SomeDelivery(s, ending, false)
    ensures !IsFragmentationIndependent(s, ending)
  {
    hide FindHeaderEnd, Run, Finish, Jumping, IsDelivery, Flatten, IsFragmentationIndependent, AnswersTooLarge;
    var n, end := MAX_HEADER_BYTES, FindHeaderEnd(s).index;
    TooLargeInWindow(s, ending);
    AcceptedInWindow(s, ending);
    StatusTellsTooLarge(Finish(Run(InHead([]), Jumping(s, n, n + 1)), ending));
    StatusTellsTooLarge(Finish(Run(InHead([]), Jumping(s, n, end + 4)), ending));
    TwoDeliveries(s, Jumping(s, n, n + 1), Jumping(s, n, end + 4), ending);
  }

  lemma BeforeWindow(s: Bytes)
    requires InWindow(s)
    ensures var n := MAX_HEADER_BYTES;
      n + 1 <= |s| && !InWindow(s[..n]) && !HasExcess(s[..n]) && StateAfter(s[..n]) == InHead(s[..n])
  {
    HeaderEndOfPrefix(s, MAX_HEADER_BYTES);
    hide FindHeaderEnd;
  }

  lemma TooLargeInWindow(s: Bytes, ending: Ending)
    requires InWindow(s)
    ensures MAX_HEADER_BYTES + 1 <= |s|
    ensures Finish(Run(InHead([]), Jumping(s, MAX_HEADER_BYTES, MAX_HEADER_BYTES + 1)), ending) == Err(HeadersTooLarge)
  {
    hide FindHeaderEnd, HasExcess, StateAfter, Jumping;
    var n := MAX_HEADER_BYTES;
    BeforeWindow(s);
    RunOfJump(s, n, n + 1);
    TakeMore(s, n, n + 1);
    HeaderEndOfPrefix(s, n + 1);
    RunOfDone(Err(HeadersTooLarge), Singles(s[n + 1..]));
  }

  lemma AcceptedInWindow(s: Bytes, ending: Ending)
    requires InWindow(s)
    ensures MAX_HEADER_BYTES < FindHeaderEnd(s).index + 4 <= |s|
    ensures Finish(Run(InHead([]), Jumping(s, MAX_HEADER_BYTES, FindHeaderEnd(s).index + 4)),
      ending) != Err(HeadersTooLarge)
  {
    hide FindHeaderEnd, HasExcess, StateAfter, Jumping, AfterHead, Run;
    var n, end := MAX_HEADER_BYTES, FindHeaderEnd(s).index;
    BeforeWindow(s);
    RunOfJump(s, n, end + 4);
    HeaderEndOfPrefix(s, end + 4);
    StepAtBlankLine(s[..n], s[n..end + 4], s[..end + 4]) by {
      TakeMore(s, n, end + 4);
    }
    AfterHeadIsDecided(s[..end + 4], end);
    NeverTooLarge(AfterHead(s[..end + 4], end), Singles(s[end + 4..]), ending);
  }

  lemma StepAtBlankLine(buffer: Bytes, chunk: Bytes, more: Bytes)
    requires more == buffer + chunk && FindHeaderEnd(more).At?
    ensures Step(InHead(buffer), chunk) == AfterHead(more, FindHeaderEnd(more).index)
  {
  }

  lemma AfterHeadIsDecided(buffer: Bytes, end: nat)
    requires end + 4 <= |buffer| && end <= MAX_HEADER_BYTES
    ensures !AfterHead(buffer, end).InHead? && AfterHead(buffer, end) != Done(Err(HeadersTooLarge))
  {
  }

  lemma TwoDeliveries(s: Bytes, a: seq<Bytes>, b: seq<Bytes>, ending: Ending)
    requires IsDelivery(a) && IsDelivery(b) && Flatten(a) == s && Flatten(b) == s
    requires Finish(Run(InHead([]), a), ending) != Finish(Run(InHead([]), b), ending)
    ensures !IsFragmentationIndependent(s, ending)
  {
  }

  /** The request with the header block `s[..end]` ends at `n`, and more follows. */
  ghost predicate EndsBefore(s: Bytes, end: nat, head: Head, n: nat) {
    && FindHeaderEnd(s) == At(end) && end <= MAX_HEADER_BYTES - 3 && ParseHead(s[..end]) == Ok(head)
    && n == end + 4 + head.length < |s|
  }

  /** A read may end exactly with the request, or bring the next byte with it. */
  lemma ExcessDepends(s: Bytes, ending: Ending)
    requires HasExcess(s) && !InWindow(s)
    ensures !IsFragmentationIndependent(s, ending)
  {
    hide FindHeaderEnd, ParseHead;
    var end := FindHeaderEnd(s).index;
    var head := ParseHead(s[..end]).value;
    var n := RequestEnd(s).index;
    assert EndsBefore(s, end, head, n) && 4 <= n < |s|;
    hide *;
    ReadToTheEnd(s, end, head, n, ending);
    ReadBeyondTheEnd(s, end, head, n, ending);
    TwoDeliveries(s, Jumping(s, n, n + 1), Jumping(s, n - 1, n + 1), ending);
  }

  lemma PrefixOutside(s: Bytes, end: nat, head: Head, n: nat, k: nat)
    requires EndsBefore(s, end, head, n) && k <= n
    ensures !InWindow(s[..k]) && !HasExcess(s[..k])
  {
    hide FindHeaderEnd, ParseHead;
    HeaderEndOfPrefix(s, k);
    if end + 4 <= k {
      assert s[..k][..end] == s[..end];
    }
  }

  lemma ReadToTheEnd(s: Bytes, end: nat, head: Head, n: nat, ending: Ending)
    requires EndsBefore(s, end, head, n) && n < |s|
    ensures Finish(Run(InHead([]), Jumping(s, n, n + 1)), ending).Ok?
  {
    hide Run, Finish, Jumping, Singles, StateAfter, Step, EndsBefore, Completed, InWindow, HasExcess, Flatten;
    hide IsDelivery;
    PrefixOutside(s, end, head, n, n);
    StateAtEnd(s, end, head, n);
    RunOfJump(s, n, n + 1);
    var state := Completed(head, s[..n][end + 4..]);
    StepOfCompleted(head, s[..n][end + 4..], s[n..n + 1]);
    RunOfDone(state.result, Singles(s[n + 1..]));
    FinishOfDone(state.result, ending);
  }

  lemma StepOfCompleted(head: Head, body: Bytes, chunk: Bytes)
    ensures var state := Completed(head, body); state.Done? && state.result.Ok? && Step(state, chunk) == state
  {
  }

  lemma FinishOfDone(result: Result<Request>, ending: Ending)
    ensures Finish(Done(result), ending) == result
  {
  }

  /** The bytes up to the declared end are an accepted request. */
  lemma StateAtEnd(s: Bytes, end: nat, head: Head, n: nat)
    requires EndsBefore(s, end, head, n)
    ensures end + 4 <= n && StateAfter(s[..n]) == Completed(head, s[..n][end + 4..])
  {
    hide FindHeaderEnd, ParseHead;
    HeaderEndOfPrefix(s, n);
    assert s[..n][..end] == s[..end];
  }

  lemma ReadBeyondTheEnd(s: Bytes, end: nat, head: Head, n: nat, ending: Ending)
    requires EndsBefore(s, end, head, n) && 0 < n < |s|
    ensures Finish(Run(InHead([]), Jumping(s, n - 1, n + 1)), ending).Err?
  {
    hide Run, Finish, Jumping, Singles, StateAfter, Step, EndsBefore, Completed, InWindow, HasExcess, Flatten;
    hide IsDelivery;
    PrefixOutside(s, end, head, n, n - 1);
    var error := if head.length == 0 then MultipleRequests else BodyExceedsLength;
    if head.length == 0 {
      LastStepWithoutBody(s, end, head, n);
    } else {
      LastStepInBody(s, end, head, n);
    }
    RunOfJump(s, n - 1, n + 1);
    RunOfDone(Err(error), Singles(s[n + 1..]));
    FinishOfDone(Err(error), ending);
  }

  lemma LastStepInBody(s: Bytes, end: nat, head: Head, n: nat)
    requires EndsBefore(s, end, head, n) && 0 < n < |s| && head.length > 0
    ensures Step(StateAfter(s[..n - 1]), s[n - 1..n + 1]) == Done(Err(BodyExceedsLength))
  {
    hide FindHeaderEnd, ParseHead;
    HeaderEndOfPrefix(s, n - 1);
    assert s[..n - 1][..end] == s[..end];
    assert StateAfter(s[..n - 1]) == InBody(head, s[..n - 1][end + 4..]);
  }

  lemma LastStepWithoutBody(s: Bytes, end: nat, head: Head, n: nat)
    requires EndsBefore(s, end, head, n) && 0 < n < |s| && head.length == 0
    ensures Step(StateAfter(s[..n - 1]), s[n - 1..n + 1]) == Done(Err(MultipleRequests))
  {
    hide FindHeaderEnd, ParseHead;
    HeaderEndOfPrefix(s, n - 1);
    HeaderEndOfPrefix(s, n + 1);
    StepAtBlankLine(s[..n - 1], s[n - 1..n + 1], s[..n + 1]) by {
      TakeMore(s, n - 1, n + 1);
    }
    assert s[..n + 1][..end] == s[..end];
  }

  /** A stream is read alike in all pieces exactly when its blank line does not start in the last
      three positions below the limit and nothing follows the request. */
  lemma FragmentationIndependence(s: Bytes, ending: Ending)
    ensures IsFragmentationIndependent(s, ending) <==> !InWindow(s) && !HasExcess(s)
  {
    if InWindow(s) {
      WindowDepends(s, ending);
    } else if HasExcess(s) {
      ExcessDepends(s, ending);
    } else {
      forall a: seq<Bytes>, b: seq<Bytes> | IsDelivery(a) && IsDelivery(b) && Flatten(a) == s && Flatten(b) == s
        ensures Run(InHead([]), a) == Run(InHead([]), b)
      {
        RunIsStateAfter(a);
        RunIsStateAfter(b);
      }
    }
  }

  // ---------- What an accepted request guarantees ----------

  /** The body has the declared length, which is within the limit of the path; header names are in
      lower case, and no transfer encoding is given. */
  ghost predicate IsSoundRequest(request: Request) {
    IsSound(Head(request.method_, request.path, request.headers, |request.body|))
  }

  ghost predicate IsSoundState(state: State) {
    match state
    case InHead(_) => true
    case InBody(head, body) => IsSound(head) && |body| < head.length
    case Done(result) => result.Ok? ==> IsSoundRequest(result.value)
  }

  lemma AfterHeadIsSound(buffer: Bytes, end: nat)
    requires end + 4 <= |buffer|
    ensures IsSoundState(AfterHead(buffer, end))
  {
    hide IsSound, ParseLines, FromUtf8;
    match FromUtf8(buffer[..end])
    case Error(_, _) =>
    case Valid(text) =>
      if ParseLines(Lines(text)).Ok? {
        AcceptedHead(Lines(text));
      }
  }

  lemma {:induction false} RunIsSound(state: State, chunks: seq<Bytes>)
    requires IsSoundState(state)
    ensures IsSoundState(Run(state, chunks))
    decreases |chunks|
  {
    hide IsSound, AfterHead, FindHeaderEnd;
    if chunks != [] {
      if state.InHead? {
        var more := state.buffer + chunks[0];
        if FindHeaderEnd(more).At? {
          AfterHeadIsSound(more, FindHeaderEnd(more).index);
        }
      }
      RunIsSound(Step(state, chunks[0]), chunks[1..]);
    }
  }

  /** Whatever bytes arrive in whatever pieces, a request that is accepted is sound. */
  lemma AcceptedRequestIsSound(chunks: seq<Bytes>, ending: Ending)
    requires Finish(Run(InHead([]), chunks), ending).Ok?
    ensures IsSoundRequest(Finish(Run(InHead([]), chunks), ending).value)
  {
    RunIsSound(InHead([]), chunks);
  }
}
