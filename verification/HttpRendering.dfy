/** A client's view: the bytes of a well-formed request, and what the server reads from them. */
module HttpRendering {
  import opened Sequences
  import opened Text
  import opened Utf8
  import opened HttpSyntax
  import opened HttpRequest
  import CacheKeys

  datatype Message = Message(method_: string, target: string, fields: seq<Field>, body: Bytes)

  // ---------- Rendering ----------

  function RequestLine(message: Message): string { message.method_ + (" " + (message.target + " HTTP/1.1")) }

  function FieldLine(field: Field): string { field.name + (": " + field.value) }

  function FieldLines(fields: seq<Field>): (lines: seq<string>)
    ensures |lines| == |fields| && forall i :: 0 <= i < |fields| ==> lines[i] == FieldLine(fields[i])
  {
    if fields == [] then [] else [FieldLine(fields[0])] + FieldLines(fields[1..])
  }

  function HeaderLines(message: Message): seq<string> { [RequestLine(message)] + FieldLines(message.fields) }

  function Joined(lines: seq<string>): string
    requires lines != []
    decreases |lines|
  {
    if |lines| == 1 then lines[0] else lines[0] + ("\r\n" + Joined(lines[1..]))
  }

  function HeaderBytes(message: Message): Bytes { EncodeText(Joined(HeaderLines(message))) }

  function Rendered(message: Message): Bytes { HeaderBytes(message) + (BLANK_LINE + message.body) }

  // ---------- Which messages are well formed ----------

  predicate IsWord(s: string) { s != [] && forall i :: 0 <= i < |s| ==> IsVisible(s[i]) }

  predicate IsValue(s: string) { Trim(s) == s && '\n' !in s }

  predicate IsField(field: Field) { IsName(field.name) && IsValue(field.value) }

  ghost predicate FieldNamesDiffer(fields: seq<Field>) {
    forall i, j :: 0 <= i < j < |fields| ==> LowerAsciiText(fields[i].name) != LowerAsciiText(fields[j].name)
  }

  /** The fields as the server keeps them. */
  function HeadersOf(fields: seq<Field>): (headers: map<string, string>)
    ensures forall name :: name in headers <==> exists i :: 0 <= i < |fields| && LowerAsciiText(fields[i].name) == name
    decreases |fields|
  {
    if fields == [] then map[]
    else
      var n := |fields| - 1;
      HeadersOf(fields[..n])[LowerAsciiText(fields[n].name) := fields[n].value]
  }

  /** Everything in front of the body can be parsed, and it is short enough. */
  ghost predicate HasPlainHead(message: Message) {
    && IsWord(message.method_) && IsMethod(message.method_)
    && IsWord(message.target) && IsTarget(message.target)
    && (forall i :: 0 <= i < |message.fields| ==> IsField(message.fields[i]))
    && FieldNamesDiffer(message.fields)
    && "transfer-encoding" !in HeadersOf(message.fields)
    && |HeaderBytes(message)| <= MAX_HEADER_BYTES - 3
  }

  ghost predicate IsWellFormed(message: Message) {
    && HasPlainHead(message)
    && DeclaredLength(message.method_, HeadersOf(message.fields)) == Ok(|message.body|)
    && |message.body| <= RequestBodyLimit(PathOf(message.target))
  }

  // ---------- Lines ----------

  predicate IsLine(s: string) {
    s != [] && '\n' !in s && s[0] != '\r' && s[|s| - 1] != '\r'
  }

  lemma FirstLine(line: string, rest: string)
    requires IsLine(line)
    ensures Lines(line + ("\r\n" + rest)) == [line] + Lines(rest)
  {
    var s := line + ("\r\n" + rest);
    var n := |line| + 1;
    FirstLineFeed(line, rest);
    HeaderAndBody(line, "\r\n", rest);
    assert s[n + 1..] == rest;
    assert WithoutReturn(s[..n]) == line by {
      assert s[..n][..n - 1] == line;
    }
  }

  lemma FirstLineFeed(line: string, rest: string)
    requires IsLine(line)
    ensures var s := line + ("\r\n" + rest); FindChar(s, '\n') == |line| + 1 && s[|line|] == '\r'
  {
    var s := line + ("\r\n" + rest);
    assert s[|line|] == '\r' && s[|line| + 1] == '\n';
    assert forall i :: 0 <= i < |line| ==> s[i] == line[i] && line[i] in line;
  }

  lemma OnlyLine(line: string)
    requires IsLine(line)
    ensures Lines(line) == [line]
  {
    assert forall i :: 0 <= i < |line| ==> line[i] in line;
  }

  lemma {:induction false} LinesOfJoined(lines: seq<string>)
    requires lines != [] && forall i :: 0 <= i < |lines| ==> IsLine(lines[i])
    ensures Lines(Joined(lines)) == lines
    decreases |lines|
  {
    hide Lines, IsLine;
    if |lines| == 1 {
      OnlyLine(lines[0]);
    } else {
      LinesOfJoined(lines[1..]);
      FirstLine(lines[0], Joined(lines[1..]));
    }
  }

  // ---------- No blank line before the end ----------

  /** No line feed is followed by a carriage return, and the text starts and ends inside a line. */
  ghost predicate IsCalm(s: string) {
    && s != [] && s[0] != '\r' && s[|s| - 1] != '\n' && s[|s| - 1] != '\r'
    && forall i :: 0 <= i < |s| - 1 && s[i] == '\n' ==> s[i + 1] != '\r'
  }

  lemma LineIsCalm(line: string)
    requires IsLine(line)
    ensures IsCalm(line)
  {
    assert forall i :: 0 <= i < |line| ==> line[i] in line;
  }

  lemma CalmJoin(line: string, rest: string)
    requires IsLine(line) && IsCalm(rest)
    ensures IsCalm(line + ("\r\n" + rest))
  {
    var s := line + ("\r\n" + rest);
    assert forall i :: 0 <= i < |line| ==> s[i] == line[i] && line[i] in line;
    assert forall i :: |line| + 2 <= i < |s| ==> s[i] == rest[i - |line| - 2];
    assert s[|line|] == '\r' && s[|line| + 1] == '\n';
  }

  lemma {:induction false} JoinedIsCalm(lines: seq<string>)
    requires lines != [] && forall i :: 0 <= i < |lines| ==> IsLine(lines[i])
    ensures IsCalm(Joined(lines))
    decreases |lines|
  {
    hide IsLine, IsCalm;
    if |lines| == 1 {
      LineIsCalm(lines[0]);
    } else {
      JoinedIsCalm(lines[1..]);
      CalmJoin(lines[0], Joined(lines[1..]));
    }
  }

  ghost predicate IsCalmBytes(s: Bytes) {
    && s != [] && s[0] != 13 && s[|s| - 1] != 10 && s[|s| - 1] != 13
    && forall i :: 0 <= i < |s| - 1 && s[i] == 10 ==> s[i + 1] != 13
  }

  /** A character is one byte of the same number, or bytes that are no ASCII character. */
  lemma EncodeIsAsciiOrNot(c: char)
    ensures c as int < 0x80 ==> Encode(c) == [c as int]
    ensures c as int >= 0x80 ==> forall i :: 0 <= i < |Encode(c)| ==> Encode(c)[i] >= 0x80
  {
  }

  lemma CalmCons(c: char, rest: Bytes, next: char)
    requires rest != [] && (rest[0] == 13 <==> next == '\r') && !(c == '\n' && next == '\r')
    requires rest[|rest| - 1] != 10 && rest[|rest| - 1] != 13
    requires forall i :: 0 <= i < |rest| - 1 && rest[i] == 10 ==> rest[i + 1] != 13
    ensures var s := Encode(c) + rest;
      && s != [] && (s[0] == 13 <==> c == '\r') && s[|s| - 1] != 10 && s[|s| - 1] != 13
      && forall i :: 0 <= i < |s| - 1 && s[i] == 10 ==> s[i + 1] != 13
  {
    EncodeIsAsciiOrNot(c);
    hide Encode;
    var first := Encode(c);
    var s := first + rest;
    assert forall i :: 0 <= i < |first| ==> s[i] == first[i];
    assert forall i :: |first| <= i < |s| ==> s[i] == rest[i - |first|];
  }

  lemma {:induction false} EncodedCalm(s: string)
    requires s != [] && s[|s| - 1] != '\n' && s[|s| - 1] != '\r'
    requires forall i :: 0 <= i < |s| - 1 && s[i] == '\n' ==> s[i + 1] != '\r'
    ensures var b := EncodeText(s);
      && b != [] && (b[0] == 13 <==> s[0] == '\r') && b[|b| - 1] != 10 && b[|b| - 1] != 13
      && forall i :: 0 <= i < |b| - 1 && b[i] == 10 ==> b[i + 1] != 13
    decreases |s|
  {
    if |s| == 1 {
      EncodeIsAsciiOrNot(s[0]);
      assert EncodeText(s[1..]) == [];
      assert EncodeText(s) == Encode(s[0]);
    } else {
      var rest := s[1..];
      assert forall i :: 0 <= i < |rest| ==> rest[i] == s[i + 1];
      EncodedCalm(rest);
      assert EncodeText(s) == Encode(s[0]) + EncodeText(rest);
      hide EncodeText, Encode;
      CalmCons(s[0], EncodeText(rest), rest[0]);
    }
  }

  /** The first blank line is the one that ends the header block. */
  lemma BlankLineIsFirst(header: Bytes, body: Bytes)
    requires IsCalmBytes(header)
    ensures FindHeaderEnd(header + (BLANK_LINE + body)) == At(|header|)
  {
    var s := header + (BLANK_LINE + body);
    var n := |header|;
    assert forall i :: 0 <= i < n ==> s[i] == header[i];
    assert s[n] == 13 && s[n + 1] == 10 && s[n + 2] == 13 && s[n + 3] == 10;
    assert BlankLineAt(s, n);
    forall i | 0 <= i < n ensures !BlankLineAt(s, i) {
      if i + 2 < n {
        assert header[i + 1] == 10 ==> header[i + 2] != 13;
      } else {
        assert n - 1 == i || n - 1 == i + 1;
      }
    }
  }

  // ---------- The request line ----------

  lemma TrimStartOfVisible(s: string)
    requires s != [] && IsVisible(s[0])
    ensures TrimStart(s) == s
  {
    assert s[0..] == s;
  }

  lemma TrimStartOfSpace(s: string)
    ensures TrimStart(" " + s) == TrimStart(s)
  {
    var t := " " + s;
    assert t[1..] == s;
    assert LeadingRun(IsWhitespace, t) == 1 + LeadingRun(IsWhitespace, s);
    assert t[1 + LeadingRun(IsWhitespace, s)..] == s[LeadingRun(IsWhitespace, s)..];
  }

  lemma RunOfWord(word: string, rest: string)
    requires IsWord(word) && (rest == [] || rest[0] == ' ')
    ensures LeadingRun(IsVisible, word + rest) == |word|
  {
    var s := word + rest;
    assert forall i :: 0 <= i < |word| ==> s[i] == word[i];
    assert rest != [] ==> s[|word|] == ' ';
  }

  lemma WordsOfWord(word: string, rest: string)
    requires IsWord(word) && (rest == [] || rest[0] == ' ')
    ensures Words(word + rest) == [word] + Words(rest)
  {
    var s := word + rest;
    assert s[0] == word[0];
    TrimStartOfVisible(s);
    RunOfWord(word, rest);
    assert s[..|word|] == word && s[|word|..] == rest;
  }

  lemma WordsOfSpace(s: string)
    ensures Words(" " + s) == Words(s)
  {
    TrimStartOfSpace(s);
  }

  lemma ParsedRequestLine(message: Message)
    requires IsWord(message.method_) && IsMethod(message.method_) && IsWord(message.target) && IsTarget(message.target)
    ensures ParseRequestLine(RequestLine(message)) == Ok((message.method_, message.target))
  {
    hide Words, IsMethod, IsTarget;
    var version := "HTTP/1.1";
    assert IsWord(version);
    assert " HTTP/1.1" == " " + version;
    WordsOfWord(message.method_, " " + (message.target + " HTTP/1.1"));
    WordsOfSpace(message.target + " HTTP/1.1");
    WordsOfWord(message.target, " HTTP/1.1");
    WordsOfSpace(version);
    assert version + [] == version;
    WordsOfWord(version, []);
    NoWords();
  }

  lemma NoWords()
    ensures Words([]) == []
  {
  }

  // ---------- The fields ----------

  lemma TrimOfSpace(s: string)
    ensures Trim(" " + s) == Trim(s)
  {
    TrimStartOfSpace(s);
  }

  lemma ParsedField(field: Field)
    requires IsField(field)
    ensures ParseField(FieldLine(field)) == Ok(Field(LowerAsciiText(field.name), field.value))
  {
    hide Trim;
    var line, n := FieldLine(field), |field.name|;
    assert forall i :: 0 <= i < n ==> line[i] == field.name[i];
    assert line[n] == ':';
    assert forall i :: 0 <= i < n ==> IsNameCharacter(line[i]);
    assert FindChar(line, ':') == n;
    assert line[..n] == field.name;
    assert line[n + 1..] == " " + field.value;
    TrimOfSpace(field.value);
  }

  lemma {:induction false} AddedFields(fields: seq<Field>, k: nat)
    requires k <= |fields| && FieldNamesDiffer(fields) && forall i :: 0 <= i < |fields| ==> IsField(fields[i])
    ensures AddFields(FieldLines(fields)[k..], HeadersOf(fields[..k])) == Ok(HeadersOf(fields))
    decreases |fields| - k
  {
    hide ParseField, IsField, HeadersOf, AddFields, FieldLines, FieldNamesDiffer, LowerAsciiText;
    var lines := FieldLines(fields);
    if k == |fields| {
      assert fields[..k] == fields && lines[k..] == [];
      NothingAdded(HeadersOf(fields));
    } else {
      ParsedField(fields[k]);
      HeadersStep(fields, k);
      AddFieldsStep(lines, k, HeadersOf(fields[..k]));
      AddedFields(fields, k + 1);
    }
  }

  lemma NothingAdded(headers: map<string, string>)
    ensures AddFields([], headers) == Ok(headers)
  {
  }

  lemma HeadersStep(fields: seq<Field>, k: nat)
    requires k < |fields| && FieldNamesDiffer(fields)
    ensures var name := LowerAsciiText(fields[k].name);
      && name !in HeadersOf(fields[..k])
      && HeadersOf(fields[..k + 1]) == HeadersOf(fields[..k])[name := fields[k].value]
  {
    hide LowerAsciiText;
    assert fields[..k + 1][..k] == fields[..k] && fields[..k + 1][k] == fields[k];
    assert forall i :: 0 <= i < k ==> fields[..k][i] == fields[i];
  }

  lemma AddFieldsStep(lines: seq<string>, k: nat, headers: map<string, string>)
    requires k < |lines| && ParseField(lines[k]).Ok? && ParseField(lines[k]).value.name !in headers
    ensures var field := ParseField(lines[k]).value;
      AddFields(lines[k..], headers) == AddFields(lines[k + 1..], headers[field.name := field.value])
  {
    hide ParseField;
    assert lines[k..][0] == lines[k] && lines[k..][1..] == lines[k + 1..];
  }

  // ---------- The whole message ----------

  lemma RequestLineIsLine(message: Message)
    requires IsWord(message.method_) && IsMethod(message.method_) && IsWord(message.target)
    ensures IsLine(RequestLine(message))
  {
    var line := RequestLine(message);
    var m, t := |message.method_|, |message.target|;
    assert forall i :: 0 <= i < m ==> line[i] == message.method_[i];
    assert line[m] == ' ';
    assert forall i :: 0 <= i < t ==> line[m + 1 + i] == message.target[i];
    assert line[m + 1 + t..] == " HTTP/1.1";
    assert forall i :: m + 1 + t <= i < |line| ==> line[i] == " HTTP/1.1"[i - (m + 1 + t)];
    forall i | 0 <= i < |line| ensures line[i] != '\n' {
      if m < i < m + 1 + t {
        assert line[m + 1 + (i - m - 1)] == message.target[i - m - 1];
      }
    }
  }

  lemma FieldLineIsLine(field: Field)
    requires IsField(field)
    ensures IsLine(FieldLine(field))
  {
    hide Trim;
    NameHasNoLineFeed(field.name);
    NotInConcat(": ", field.value);
    NotInConcat(field.name, ": " + field.value);
    var line := FieldLine(field);
    assert line[0] == field.name[0] && IsNameCharacter(field.name[0]);
    if field.value == [] {
      assert line[|line| - 1] == ' ';
    } else {
      assert line[|line| - 1] == field.value[|field.value| - 1];
      TrimmedEnd(field.value);
    }
  }

  lemma NameHasNoLineFeed(name: string)
    requires IsName(name)
    ensures '\n' !in name
  {
    assert forall i :: 0 <= i < |name| ==> IsNameCharacter(name[i]);
  }

  lemma NotInConcat(a: string, b: string)
    requires '\n' !in a && '\n' !in b
    ensures '\n' !in a + b
  {
  }

  lemma TrimmedEnd(s: string)
    requires s != [] && Trim(s) == s
    ensures s[|s| - 1] != '\r'
  {
    TrimBySplits(IsWhitespace, s);
  }

  lemma AllAreLines(message: Message)
    requires HasPlainHead(message)
    ensures forall i :: 0 <= i < |HeaderLines(message)| ==> IsLine(HeaderLines(message)[i])
  {
    hide IsLine, IsField, IsMethod, IsWord, IsTarget;
    RequestLineIsLine(message);
    forall i | 0 <= i < |message.fields| ensures IsLine(FieldLine(message.fields[i])) {
      FieldLineIsLine(message.fields[i]);
    }
  }

  /** What the header block of a message says: a head with the declared length, or why there is none. */
  function Announced(message: Message): Result<Head> {
    var headers := HeadersOf(message.fields);
    match DeclaredLength(message.method_, headers)
    case Err(error) => Err(error)
    case Ok(length) =>
      if length > RequestBodyLimit(PathOf(message.target)) then Err(BodyTooLarge)
      else Ok(Head(message.method_, PathOf(message.target), headers, length))
  }

  lemma ParsedLines(message: Message)
    requires HasPlainHead(message)
    ensures ParseLines(HeaderLines(message)) == Announced(message)
  {
    hide IsField, IsMethod, IsWord, IsTarget, ParseRequestLine, RequestLine, AddFields, FieldLines, PathOf, HeaderBytes;
    ParsedRequestLine(message);
    var lines := HeaderLines(message);
    assert lines[0] == RequestLine(message) && lines[1..] == FieldLines(message.fields);
    AddedFields(message.fields, 0);
    assert message.fields[..0] == [] && FieldLines(message.fields)[0..] == FieldLines(message.fields);
    NoHeaders();
  }

  lemma NoHeaders()
    ensures HeadersOf([]) == map[]
  {
  }

  /** The server's view of a well-formed message. */
  function Received(message: Message): Request {
    Request(message.method_, PathOf(message.target), HeadersOf(message.fields), message.body)
  }

  lemma RenderedState(message: Message)
    requires HasPlainHead(message)
    ensures FindHeaderEnd(Rendered(message)) == At(|HeaderBytes(message)|)
    ensures ParseHead(HeaderBytes(message)) == Announced(message)
  {
    AllAreLines(message);
    hide IsLine, HasPlainHead, HeaderLines, FindHeaderEnd, ParseLines, Lines, FromUtf8, Announced;
    var lines := HeaderLines(message);
    JoinedIsCalm(lines);
    EncodedCalm(Joined(lines));
    BlankLineIsFirst(HeaderBytes(message), message.body);
    EncodedTextIsValid(Joined(lines));
    LinesOfJoined(lines);
    ParsedLines(message);
  }

  /** However a well-formed message is cut into reads, the server gets its method, its path, its
      fields and its body. */
  lemma RenderedIsReceived(message: Message, chunks: seq<Bytes>, ending: Ending)
    requires IsWellFormed(message) && IsDelivery(chunks) && Flatten(chunks) == Rendered(message)
    ensures Finish(Run(InHead([]), chunks), ending) == Ok(Received(message))
  {
    RenderedLeavesReceived(message);
    hide IsWellFormed, Rendered, StateAfter, FindHeaderEnd, HeadersOf, PathOf, Run, Flatten;
    RunIsStateAfter(chunks);
  }

  lemma RenderedLeavesReceived(message: Message)
    requires IsWellFormed(message)
    ensures StateAfter(Rendered(message)) == Done(Ok(Received(message)))
    ensures !InWindow(Rendered(message)) && !HasExcess(Rendered(message))
  {
    RenderedState(message);
    hide FindHeaderEnd, ParseHead, HeadersOf, PathOf, HeaderBytes, StateAfter, InWindow, HasExcess;
    WholeRequest(HeaderBytes(message), message.body);
  }

  /** The state after a header block, its blank line and a body that is no longer than declared. */
  lemma WholeRequest(header: Bytes, body: Bytes)
    requires |header| <= MAX_HEADER_BYTES - 3
    requires FindHeaderEnd(header + (BLANK_LINE + body)) == At(|header|)
    requires ParseHead(header).Ok? ==> |body| <= ParseHead(header).value.length
    ensures var s := header + (BLANK_LINE + body);
      && !InWindow(s) && !HasExcess(s)
      && StateAfter(s) == match ParseHead(header)
        case Err(error) => Done(Err(error))
        case Ok(head) => if |body| == head.length then Completed(head, body) else InBody(head, body)
  {
    hide FindHeaderEnd, ParseHead;
    HeaderAndBody(header, BLANK_LINE, body);
  }

  lemma HeaderAndBody<T>(header: seq<T>, blank: seq<T>, body: seq<T>)
    ensures var s := header + (blank + body); s[..|header|] == header && s[|header| + |blank|..] == body
  {
  }

  // ---------- The limits, written out ----------

  /** `name` is `lower` in some mix of cases. */
  predicate IsNamed(name: string, lower: string) {
    |name| == |lower| && forall i :: 0 <= i < |name| ==>
      name[i] == lower[i] || ('A' <= name[i] <= 'Z' && name[i] as int + 32 == lower[i] as int)
  }

  predicate IsPlainName(name: string) {
    name != [] && forall i :: 0 <= i < |name| ==>
      'a' <= name[i] <= 'z' || 'A' <= name[i] <= 'Z' || '0' <= name[i] <= '9' || name[i] == '-'
  }

  predicate IsPlainField(field: Field) {
    IsPlainName(field.name) && IsValue(field.value) && !IsNamed(field.name, "transfer-encoding")
  }

  predicate IsUpperWord(s: string) { s != [] && forall i :: 0 <= i < |s| ==> 'A' <= s[i] <= 'Z' }

  /** `target` is `path`, with or without a query behind it. */
  predicate Names(target: string, path: string) {
    && path != [] && path[0] == '/' && '?' !in path
    && path <= target && (|path| < |target| ==> target[|path|] == '?')
  }

  ghost predicate DeclaresLength(fields: seq<Field>, length: nat) {
    exists k :: 0 <= k < |fields| && IsNamed(fields[k].name, "content-length")
      && fields[k].value == CacheKeys.Decimal(length)
  }

  /** A request for `path`, up to the length of its body. */
  ghost predicate IsPlain(message: Message, path: string) {
    && IsUpperWord(message.method_)
    && IsWord(message.target) && Names(message.target, path) && |EncodeText(message.target)| <= 2048
    && (forall i :: 0 <= i < |message.fields| ==> IsPlainField(message.fields[i]))
    && FieldNamesDiffer(message.fields)
    && |HeaderBytes(message)| <= 16381
  }

  lemma {:induction false} DecimalRoundTrips(n: nat)
    ensures AllDigits(CacheKeys.Decimal(n)) && DecimalValue(CacheKeys.Decimal(n)) == n
  {
    var s := CacheKeys.Decimal(n);
    if n < 10 {
      assert s[..0] == [];
    } else {
      DecimalRoundTrips(n / 10);
      assert s[..|s| - 1] == CacheKeys.Decimal(n / 10);
    }
  }

  lemma NamedLower(name: string, lower: string)
    requires forall i :: 0 <= i < |lower| ==> !('A' <= lower[i] <= 'Z')
    ensures IsNamed(name, lower) <==> LowerAsciiText(name) == lower
  {
    if LowerAsciiText(name) == lower {
      assert forall i :: 0 <= i < |name| ==> LowerAscii(name[i]) == lower[i];
    }
  }

  lemma {:induction false} HeaderOf(fields: seq<Field>, k: nat)
    requires k < |fields| && FieldNamesDiffer(fields)
    ensures var name := LowerAsciiText(fields[k].name);
      name in HeadersOf(fields) && HeadersOf(fields)[name] == fields[k].value
    decreases |fields|
  {
    hide LowerAsciiText;
    var n := |fields| - 1;
    if k < n {
      assert forall i :: 0 <= i < n ==> fields[..n][i] == fields[i];
      HeaderOf(fields[..n], k);
    }
  }

  lemma PlainHead(message: Message, path: string)
    requires IsPlain(message, path)
    ensures HasPlainHead(message) && PathOf(message.target) == path
  {
    hide IsNamed, HeaderBytes, IsValue, FieldNamesDiffer, HeadersOf;
    var fields := message.fields;
    assert IsWord(message.method_) && IsMethod(message.method_);
    assert forall i :: 0 <= i < |path| ==> path[i] == message.target[i];
    assert forall i :: 0 <= i < |path| ==> path[i] != '?';
    assert message.target[..|path|] == path;
    forall i | 0 <= i < |fields| ensures IsField(fields[i]) {
      PlainNameIsName(fields[i].name);
    }
    forall i | 0 <= i < |fields| ensures LowerAsciiText(fields[i].name) != "transfer-encoding" {
      NamedLower(fields[i].name, "transfer-encoding");
    }
  }

  lemma PlainNameIsName(name: string)
    ensures IsPlainName(name) <==> IsName(name)
  {
  }

  lemma LengthField(fields: seq<Field>, length: nat)
    requires DeclaresLength(fields, length) && FieldNamesDiffer(fields)
    ensures "content-length" in HeadersOf(fields) && HeadersOf(fields)["content-length"] == CacheKeys.Decimal(length)
  {
    var k :| 0 <= k < |fields| && IsNamed(fields[k].name, "content-length")
      && fields[k].value == CacheKeys.Decimal(length);
    assert LowerAsciiText(fields[k].name) == "content-length" by {
      NamedLower(fields[k].name, "content-length");
    }
    hide IsNamed, HeadersOf, CacheKeys.Decimal, FieldNamesDiffer, LowerAsciiText;
    HeaderOf(fields, k);
  }

  lemma LengthOfDecimal(method_: string, headers: map<string, string>, length: nat)
    requires "content-length" in headers && headers["content-length"] == CacheKeys.Decimal(length)
    ensures DeclaredLength(method_, headers) ==
      if length < 0x1_0000_0000_0000_0000 then Ok(length) else Err(InvalidContentLength)
  {
    hide DecimalValue, AllDigits, CacheKeys.Decimal;
    DecimalRoundTrips(length);
  }

  lemma DeclaredAnnounced(message: Message, path: string, length: nat)
    requires IsPlain(message, path) && DeclaresLength(message.fields, length)
    ensures var limit := if path in {"/api/clipboard", "/api/compress", "/api/prepare-input"} then 262144 else 16384;
      Announced(message) ==
        if length >= 0x1_0000_0000_0000_0000 then Err(InvalidContentLength)
        else if length > limit then Err(BodyTooLarge)
        else Ok(Head(message.method_, path, HeadersOf(message.fields), length))
  {
    PlainHead(message, path);
    assert FieldNamesDiffer(message.fields);
    hide IsPlain, HeadersOf, PathOf, HasPlainHead, DeclaresLength, FieldNamesDiffer, DeclaredLength;
    LengthField(message.fields, length);
    LengthOfDecimal(message.method_, HeadersOf(message.fields), length);
  }

  /** However a request is cut into reads: a body within the limit of its path is received, a shorter
      one than declared is missed, and a declared length above the limit is answered with status 413. */
  lemma BodyLimits(message: Message, path: string, length: nat, chunks: seq<Bytes>, ending: Ending)
    requires IsPlain(message, path) && DeclaresLength(message.fields, length)
    requires IsDelivery(chunks) && Flatten(chunks) == Rendered(message)
    ensures var result := Finish(Run(InHead([]), chunks), ending);
      var limit := if path in {"/api/clipboard", "/api/compress", "/api/prepare-input"} then 262144 else 16384;
      && (length <= limit && |message.body| == length ==>
           result == Ok(Request(message.method_, path, HeadersOf(message.fields), message.body)))
      && (length <= limit && |message.body| < length ==> result == Err(AtEnd(ending, IncompleteBody)))
      && (limit < length < 0x1_0000_0000_0000_0000 ==> result == Err(BodyTooLarge) && Status(result.error) == 413)
      && (length >= 0x1_0000_0000_0000_0000 ==>
           result == Err(InvalidContentLength) && Status(result.error) == 400)
  {
    DeclaredAnnounced(message, path, length);
    PlainHead(message, path);
    var limit := if path in {"/api/clipboard", "/api/compress", "/api/prepare-input"} then 262144 else 16384;
    hide *;
    ResultWithin(message, path, length, limit, chunks, ending);
  }

  lemma LimitStatus()
    ensures Status(BodyTooLarge) == 413 && Status(InvalidContentLength) == 400
  {
  }

  lemma ResultWithin(message: Message, path: string, length: nat, limit: nat, chunks: seq<Bytes>, ending: Ending)
    requires HasPlainHead(message)
    requires Announced(message) ==
      if length >= 0x1_0000_0000_0000_0000 then Err(InvalidContentLength)
      else if length > limit then Err(BodyTooLarge)
      else Ok(Head(message.method_, path, HeadersOf(message.fields), length))
    requires IsDelivery(chunks) && Flatten(chunks) == Rendered(message) && limit <= 262144
    ensures var result := Finish(Run(InHead([]), chunks), ending);
      && (length <= limit && |message.body| == length ==>
           result == Ok(Request(message.method_, path, HeadersOf(message.fields), message.body)))
      && (length <= limit && |message.body| < length ==> result == Err(AtEnd(ending, IncompleteBody)))
      && (limit < length < 0x1_0000_0000_0000_0000 ==> result == Err(BodyTooLarge) && Status(result.error) == 413)
      && (length >= 0x1_0000_0000_0000_0000 ==>
           result == Err(InvalidContentLength) && Status(result.error) == 400)
  {
    hide *;
    LimitStatus();
    if length > limit || |message.body| <= length {
      RenderedResult(message, Announced(message), chunks, ending);
    }
  }

  lemma RenderedResult(message: Message, announced: Result<Head>, chunks: seq<Bytes>, ending: Ending)
    requires IsDelivery(chunks) && Flatten(chunks) == Rendered(message)
    requires HasPlainHead(message) && Announced(message) == announced
    requires announced.Ok? ==> |message.body| <= announced.value.length
    ensures Finish(Run(InHead([]), chunks), ending) == match announced
      case Err(error) => Err(error)
      case Ok(head) =>
        if |message.body| < head.length then Err(AtEnd(ending, IncompleteBody))
        else Ok(Request(head.method_, head.path, head.headers, message.body))
  {
    assert |HeaderBytes(message)| <= MAX_HEADER_BYTES - 3;
    hide HasPlainHead, FindHeaderEnd, HeaderBytes, Run, Flatten, IsDelivery, StateAfter, InWindow, HasExcess;
    hide ParseHead, Announced;
    RenderedState(message);
    WholeRequest(HeaderBytes(message), message.body);
    RunIsStateAfter(chunks);
  }

  ghost predicate HasNoLength(fields: seq<Field>) {
    forall i :: 0 <= i < |fields| ==> !IsNamed(fields[i].name, "content-length")
  }

  /** Without a declared length, three methods are answered with status 411; any other request has no body. */
  lemma WithoutLength(message: Message, path: string, chunks: seq<Bytes>, ending: Ending)
    requires IsPlain(message, path) && HasNoLength(message.fields)
    requires IsDelivery(chunks) && Flatten(chunks) == Rendered(message)
    ensures var result := Finish(Run(InHead([]), chunks), ending);
      && (message.method_ in {"POST", "PUT", "PATCH"} ==>
           result == Err(LengthRequired) && Status(result.error) == 411)
      && (message.method_ !in {"POST", "PUT", "PATCH"} && message.body == [] ==>
           result == Ok(Request(message.method_, path, HeadersOf(message.fields), [])))
  {
    PlainHead(message, path);
    NoLengthAnnounced(message);
    hide *;
    if message.method_ in {"POST", "PUT", "PATCH"} || message.body == [] {
      RenderedResult(message, Announced(message), chunks, ending);
    }
  }

  lemma NoLengthAnnounced(message: Message)
    requires HasNoLength(message.fields)
    ensures Announced(message) ==
      if message.method_ in {"POST", "PUT", "PATCH"} then Err(LengthRequired)
      else Ok(Head(message.method_, PathOf(message.target), HeadersOf(message.fields), 0))
    ensures Status(LengthRequired) == 411
  {
    hide IsNamed, LowerAsciiText, PathOf;
    forall i | 0 <= i < |message.fields| ensures LowerAsciiText(message.fields[i].name) != "content-length" {
      NamedLower(message.fields[i].name, "content-length");
    }
  }

  /** No blank line starts in the first 16385 bytes. */
  ghost predicate HasLongHeader(s: Bytes) {
    |s| > 16384 && forall i :: 0 <= i <= 16384 && i + 4 <= |s| ==> !BlankLineAt(s, i)
  }

  /** A header block of more than 16384 bytes is answered with status 431. */
  lemma HeaderLimit(chunks: seq<Bytes>, ending: Ending)
    requires IsDelivery(chunks) && HasLongHeader(Flatten(chunks))
    ensures Finish(Run(InHead([]), chunks), ending) == Err(HeadersTooLarge) && Status(HeadersTooLarge) == 431
  {
    var s := Flatten(chunks);
    hide FindHeaderEnd, ParseHead, Run, Flatten, IsDelivery;
    RunIsStateAfter(chunks);
  }

  // ---------- What the server accepts, written out ----------

  /** Method, target and version with blanks between them. */
  ghost predicate Separates(line: string, a: string, method_: string, b: string, target: string, c: string, d: string) {
    && line == a + (method_ + (b + (target + (c + ("HTTP/1.1" + d)))))
    && Blank(a) && Blank(b) && b != "" && Blank(c) && c != "" && Blank(d)
  }

  ghost predicate IsRequestLine(line: string, method_: string, target: string) {
    && IsUpperWord(method_) && IsWord(target) && target[0] == '/' && |EncodeText(target)| <= 2048
    && exists a, b, c, d :: Separates(line, a, method_, b, target, c, d)
  }

  /** A name, a colon and a value, which may have blanks around it. */
  ghost predicate IsFieldLine(line: string, name: string, value: string) {
    IsPlainName(name) && exists text :: line == name + (":" + text) && Trim(text) == value
  }

  lemma WordsBehindBlanks(blanks: string, word: string, rest: string)
    requires Blank(blanks) && IsWord(word) && (rest == "" || IsWhitespace(rest[0]))
    ensures Words(blanks + (word + rest)) == [word] + Words(rest)
  {
    var s := word + rest;
    assert s[0] == word[0] && forall i :: 0 <= i < |word| ==> s[i] == word[i];
    assert rest != "" ==> s[|word|] == rest[0];
    hide IsWhitespace, Blank;
    TrimStartOfBlanks(blanks, s);
    assert LeadingRun(IsVisible, s) == |word|;
    assert s[..|word|] == word && s[|word|..] == rest;
  }

  lemma NoWordsInBlanks(blanks: string)
    ensures Words(blanks) == [] <==> Blank(blanks)
  {
    if Blank(blanks) {
      assert blanks + [] == blanks;
      TrimStartOfBlanks(blanks, []);
    }
  }

  lemma WordsStep(s: string)
    ensures var tail := TrimStart(s);
      Words(s) == if tail == [] then [] else
        [tail[..LeadingRun(IsVisible, tail)]] + Words(tail[LeadingRun(IsVisible, tail)..])
  {
    hide TrimStart, LeadingRun;
  }

  lemma BlanksInFront(s: string)
    ensures var n := |s| - |TrimStart(s)|;
      n >= 0 && Blank(s[..n]) && s == s[..n] + TrimStart(s) && (TrimStart(s) != [] ==> IsVisible(TrimStart(s)[0]))
  {
  }

  lemma WordInFront(s: string)
    requires s != [] && IsVisible(s[0])
    ensures var m := LeadingRun(IsVisible, s);
      IsWord(s[..m]) && s == s[..m] + s[m..] && (s[m..] == "" || IsWhitespace(s[m..][0]))
  {
  }

  lemma FirstWord(s: string) returns (blanks: string, rest: string)
    requires Words(s) != []
    ensures IsWord(Words(s)[0]) && Blank(blanks) && s == blanks + (Words(s)[0] + rest)
    ensures (rest == "" || IsWhitespace(rest[0])) && Words(rest) == Words(s)[1..]
  {
    hide *;
    var tail := TrimStart(s);
    WordsStep(s);
    BlanksInFront(s);
    WordInFront(tail);
    blanks, rest := s[..|s| - |tail|], tail[LeadingRun(IsVisible, tail)..];
  }

  lemma RequestLineWords(line: string, method_: string, target: string)
    ensures ParseRequestLine(line) == Ok((method_, target)) <==>
      Words(line) == [method_, target, "HTTP/1.1"] && IsMethod(method_) && IsTarget(target)
  {
    hide Words, IsMethod, IsTarget;
    var parts := Words(line);
    if |parts| == 3 && parts[2] == "HTTP/1.1" {
      assert parts == [parts[0], parts[1], "HTTP/1.1"];
    }
  }

  lemma WordsOfLine(line: string, a: string, method_: string, b: string, target: string, c: string, d: string)
    requires Separates(line, a, method_, b, target, c, d) && IsWord(method_) && IsWord(target)
    ensures Words(line) == [method_, target, "HTTP/1.1"]
  {
    var version := "HTTP/1.1";
    assert IsWord(version);
    var behind := version + d;
    var last := c + behind;
    var middle := b + (target + last);
    assert IsWhitespace(last[0]) && IsWhitespace(middle[0]);
    hide Words, IsWord, Blank, IsWhitespace;
    WordsBehindBlanks(a, method_, middle);
    WordsBehindBlanks(b, target, last);
    WordsBehindBlanks(c, version, d) by { BlankStarts(d); }
    NoWordsInBlanks(d);
  }

  lemma BlankStarts(s: string)
    requires Blank(s)
    ensures s == "" || IsWhitespace(s[0])
  {
  }

  lemma LineOfWords(line: string, method_: string, target: string)
    returns (a: string, b: string, c: string, d: string)
    requires Words(line) == [method_, target, "HTTP/1.1"]
    ensures Separates(line, a, method_, b, target, c, d) && IsWord(method_) && IsWord(target)
  {
    hide Words, IsWord, Blank;
    var rest, last;
    a, rest := FirstWord(line);
    b, last := FirstWord(rest);
    c, d := FirstWord(last);
    assert Words(line)[1..][1..][1..] == [];
    NoWordsInBlanks(d);
    BlankBetween(b, target, last, rest);
    BlankBetween(c, "HTTP/1.1", d, last);
  }

  lemma TargetIs(target: string)
    ensures IsTarget(target) <==> target != "" && target[0] == '/' && |EncodeText(target)| <= 2048
  {
    hide EncodeText;
  }

  /** A request line is accepted exactly when it has this form, and then with this method and target. */
  lemma RequestLineExactly(line: string, method_: string, target: string)
    ensures ParseRequestLine(line) == Ok((method_, target)) <==> IsRequestLine(line, method_, target)
  {
    hide Words, ParseRequestLine, IsTarget, IsMethod, IsUpperWord, EncodeText, Separates;
    RequestLineWords(line, method_, target);
    TargetIs(target);
    UpperWord(method_);
    if ParseRequestLine(line) == Ok((method_, target)) {
      var a, b, c, d := LineOfWords(line, method_, target);
    }
    if IsRequestLine(line, method_, target) {
      var a, b, c, d :| Separates(line, a, method_, b, target, c, d);
      WordsOfLine(line, a, method_, b, target, c, d);
    }
  }

  lemma UpperWord(s: string)
    ensures IsUpperWord(s) <==> IsWord(s) && IsMethod(s)
  {
  }

  /** What follows a word does not start inside it, so there is a blank in front of the next one. */
  lemma BlankBetween(blanks: string, word: string, behind: string, rest: string)
    requires rest == blanks + (word + behind) && IsWord(word) && (rest == "" || IsWhitespace(rest[0]))
    ensures blanks != ""
  {
    assert rest[|blanks|] == word[0] && IsVisible(word[0]);
  }

  /** A field is accepted exactly when its line has this form. */
  lemma FieldExactly(line: string, name: string, value: string)
    ensures IsFieldLine(line, name, value) ==> ParseField(line) == Ok(Field(LowerAsciiText(name), value))
    ensures ParseField(line).Ok? ==> exists written, text ::
      IsFieldLine(line, written, text) && ParseField(line) == Ok(Field(LowerAsciiText(written), text))
  {
    hide Trim;
    if IsFieldLine(line, name, value) {
      var text :| line == name + (":" + text) && Trim(text) == value;
      PlainNameIsName(name);
      ColonIsFirst(name, text);
      assert line[0] == name[0];
    }
    if ParseField(line).Ok? {
      var n := FindChar(line, ':');
      PlainNameIsName(line[..n]);
      assert line == line[..n] + (":" + line[n + 1..]);
      assert IsFieldLine(line, line[..n], Trim(line[n + 1..]));
    }
  }

  lemma ColonIsFirst(name: string, text: string)
    requires IsName(name)
    ensures var line := name + (":" + text);
      FindChar(line, ':') == |name| && line[..|name|] == name && line[|name| + 1..] == text
  {
    var line := name + (":" + text);
    assert line[|name|] == ':';
    forall i | 0 <= i < |name| ensures line[i] != ':' {
      assert line[i] == name[i] && IsNameCharacter(name[i]);
    }
  }
}
