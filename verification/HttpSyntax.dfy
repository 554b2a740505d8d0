/** The header block of a request: request line, fields and declared length (ui/web/src/lib.rs).
    The grammar is sections 3, 5 and 6.3 of RFC 9112. */
module HttpSyntax {
  import opened Text
  import Utf8

  datatype Result<+T> = Ok(value: T) | Err(error: Error)

  datatype Error =
    | IncompleteHeaders | HeadersTooLarge | NotUtf8
    | MissingRequestLine | MissingMethod | MissingPath | MissingVersion | UnsupportedRequestLine | InvalidTarget
    | FoldedHeader | MalformedHeader | InvalidHeaderName | DuplicateHeader
    | TransferEncoding | InvalidContentLength | LengthRequired | BodyTooLarge
    | MultipleRequests | IncompleteBody | BodyExceedsLength
    | TimedOut | ReadFailed

  function Status(error: Error): nat {
    match error
    case HeadersTooLarge => 431
    case LengthRequired => 411
    case BodyTooLarge => 413
    case TimedOut => 408
    case _ => 400
  }

  const MAX_HEADER_BYTES: nat := 16 * 1024
  const MAX_REQUEST_PATH_BYTES: nat := 2 * 1024
  const MAX_REQUEST_BODY_BYTES: nat := 256 * 1024
  const MAX_SETTINGS_BODY_BYTES: nat := 16 * 1024

  // ---------- Lines and words ----------

  function WithoutReturn(line: string): string {
    if line != [] && line[|line| - 1] == '\r' then line[..|line| - 1] else line
  }

  /** `str::lines`: a line ends at a line feed, or at a carriage return and a line feed; only the
      last line may lack its ending, and then it keeps a carriage return. */
  function Lines(s: string): (lines: seq<string>)
    decreases |s|
  {
    if s == [] then []
    else
      var n := FindChar(s, '\n');
      if n == |s| then [s] else [WithoutReturn(s[..n])] + Lines(s[n + 1..])
  }

  predicate IsVisible(c: char) { !IsWhitespace(c) }

  /** `str::split_whitespace`. */
  function Words(s: string): (words: seq<string>)
    decreases |s|
  {
    var rest := TrimStart(s);
    if rest == [] then []
    else
      var n := LeadingRun(IsVisible, rest);
      [rest[..n]] + Words(rest[n..])
  }

  // ---------- The request line ----------

  predicate IsUpper(c: char) { 'A' <= c <= 'Z' }

  predicate IsMethod(s: string) { forall i :: 0 <= i < |s| ==> IsUpper(s[i]) }

  predicate IsTarget(s: string) { s != [] && s[0] == '/' && |Utf8.EncodeText(s)| <= MAX_REQUEST_PATH_BYTES }

  /** Method and target. */
  function ParseRequestLine(line: string): (r: Result<(string, string)>)
    ensures r.Ok? ==> IsMethod(r.value.0) && IsTarget(r.value.1)
  {
    var parts := Words(line);
    if |parts| == 0 then Err(MissingMethod)
    else if |parts| == 1 then Err(MissingPath)
    else if |parts| == 2 then Err(MissingVersion)
    else if |parts| > 3 || parts[2] != "HTTP/1.1" then Err(UnsupportedRequestLine)
    else if !IsMethod(parts[0]) || !IsTarget(parts[1]) then Err(InvalidTarget)
    else Ok((parts[0], parts[1]))
  }

  /** The target without its query. */
  function PathOf(target: string): (path: string)
    ensures '?' !in path
    ensures target != [] && target[0] == '/' ==> path != [] && path[0] == '/'
  {
    target[..FindChar(target, '?')]
  }

  // ---------- Header fields ----------

  datatype Field = Field(name: string, value: string)

  predicate IsNameCharacter(c: char) { IsAsciiAlphanumeric(c) || c == '-' }

  predicate IsName(s: string) { s != [] && forall i :: 0 <= i < |s| ==> IsNameCharacter(s[i]) }

  predicate IsLowerName(s: string) { IsName(s) && LowerAsciiText(s) == s }

  lemma LoweredName(s: string)
    requires IsName(s)
    ensures IsLowerName(LowerAsciiText(s))
  {
  }

  function ParseField(line: string): (r: Result<Field>)
    ensures r.Ok? ==> IsLowerName(r.value.name)
    ensures r.Err? ==> r.error in {FoldedHeader, MalformedHeader, InvalidHeaderName}
  {
    if line != [] && (line[0] == ' ' || line[0] == '\t') then Err(FoldedHeader)
    else
      var n := FindChar(line, ':');
      if n == |line| then Err(MalformedHeader)
      else if !IsName(line[..n]) then Err(InvalidHeaderName)
      else
        LoweredName(line[..n]);
        Ok(Field(LowerAsciiText(line[..n]), Trim(line[n + 1..])))
  }

  /** Adds the fields of the lines to a map, and stops at the first bad or repeated one. */
  function AddFields(lines: seq<string>, headers: map<string, string>): (r: Result<map<string, string>>)
    decreases |lines|
  {
    if lines == [] then Ok(headers)
    else
      match ParseField(lines[0])
      case Err(error) => Err(error)
      case Ok(field) =>
        if field.name in headers then Err(DuplicateHeader)
        else AddFields(lines[1..], headers[field.name := field.value])
  }

  method ParseHeaders(lines: seq<string>) returns (r: Result<map<string, string>>)
    ensures r == AddFields(lines, map[])
  {
    var headers: map<string, string> := map[];
    for i := 0 to |lines|
      invariant AddFields(lines, map[]) == AddFields(lines[i..], headers)
    {
      var line := lines[i];
      if line != [] && (line[0] == ' ' || line[0] == '\t') {
        return Err(FoldedHeader);
      }
      var n := FindChar(line, ':');
      if n == |line| {
        return Err(MalformedHeader);
      }
      if !IsName(line[..n]) {
        return Err(InvalidHeaderName);
      }
      var name := LowerAsciiText(line[..n]);
      if name in headers {
        return Err(DuplicateHeader);
      }
      headers := headers[name := Trim(line[n + 1..])];
      assert lines[i..][1..] == lines[i + 1..];
    }
    r := Ok(headers);
  }

  /** The map holds exactly the fields of the lines, and no two lines share a name. */
  ghost predicate Holds(lines: seq<string>, headers: map<string, string>) {
    && (forall i :: 0 <= i < |lines| ==>
         && ParseField(lines[i]).Ok?
         && ParseField(lines[i]).value.name in headers
         && headers[ParseField(lines[i]).value.name] == ParseField(lines[i]).value.value)
    && |headers| == |lines|
  }

  lemma {:induction false} AddFieldsHolds(lines: seq<string>, n: nat, headers: map<string, string>)
    requires n <= |lines| && Holds(lines[..n], headers)
    requires AddFields(lines[n..], headers).Ok?
    ensures Holds(lines, AddFields(lines[n..], headers).value)
    decreases |lines| - n
  {
    hide ParseField;
    if n == |lines| {
      assert lines[..n] == lines;
    } else {
      var field := ParseField(lines[n]).value;
      var more := headers[field.name := field.value];
      assert lines[n..][0] == lines[n] && lines[n..][1..] == lines[n + 1..];
      var taken := lines[..n + 1];
      forall i | 0 <= i < n + 1
        ensures ParseField(taken[i]).Ok? && ParseField(taken[i]).value.name in more
        ensures more[ParseField(taken[i]).value.name] == ParseField(taken[i]).value.value
      {
        if i < n {
          assert taken[i] == lines[..n][i];
        }
      }
      assert Holds(taken, more);
      AddFieldsHolds(lines, n + 1, more);
    }
  }

  /** A header block is accepted with the fields of its lines, all under different lower-case names. */
  lemma AcceptedHeaders(lines: seq<string>, headers: map<string, string>)
    requires AddFields(lines, map[]) == Ok(headers)
    ensures Holds(lines, headers)
    ensures forall name :: name in headers ==> IsLowerName(name)
  {
    assert lines[..0] == [] && lines[0..] == lines;
    AddFieldsHolds(lines, 0, map[]);
    NamesAreLower(lines, map[]);
  }

  ghost predicate AllParse(lines: seq<string>) { forall i :: 0 <= i < |lines| ==> ParseField(lines[i]).Ok? }

  function NameOf(line: string): string
    requires ParseField(line).Ok?
  {
    ParseField(line).value.name
  }

  ghost predicate NamesDiffer(lines: seq<string>)
    requires AllParse(lines)
  {
    forall i, j :: 0 <= i < j < |lines| ==> NameOf(lines[i]) != NameOf(lines[j])
  }

  /** A header block is refused exactly when a line is no field or two fields share a name. */
  lemma HeadersAcceptedExactly(lines: seq<string>)
    ensures AddFields(lines, map[]).Ok? <==> AllParse(lines) && NamesDiffer(lines)
  {
    FieldsAddedExactly(lines, map[]);
    hide ParseField;
  }

  lemma {:induction false} FieldsAddedExactly(lines: seq<string>, headers: map<string, string>)
    ensures AddFields(lines, headers).Ok? <==>
      && AllParse(lines) && NamesDiffer(lines)
      && forall i :: 0 <= i < |lines| ==> NameOf(lines[i]) !in headers
    decreases |lines|
  {
    hide ParseField;
    if lines != [] && ParseField(lines[0]).Ok? && NameOf(lines[0]) !in headers {
      var field, rest := ParseField(lines[0]).value, lines[1..];
      assert AddFields(lines, headers).Ok? <==> AddFields(rest, headers[field.name := field.value]).Ok?;
      FieldsAddedExactly(rest, headers[field.name := field.value]);
      hide AddFields;
      assert forall i :: 0 < i < |lines| ==> lines[i] == rest[i - 1];
      assert AllParse(lines) <==> AllParse(rest);
      if AllParse(lines) {
        assert NamesDiffer(lines) <==> NamesDiffer(rest) && forall i :: 0 <= i < |rest| ==>
          NameOf(rest[i]) != field.name by {
          assert forall i :: 0 <= i < |rest| ==> rest[i] == lines[i + 1];
        }
      }
    }
  }

  lemma {:induction false} NamesAreLower(lines: seq<string>, headers: map<string, string>)
    requires forall name :: name in headers ==> IsLowerName(name)
    requires AddFields(lines, headers).Ok?
    ensures forall name :: name in AddFields(lines, headers).value ==> IsLowerName(name)
    decreases |lines|
  {
    hide IsLowerName;
    if lines != [] {
      var field := ParseField(lines[0]).value;
      NamesAreLower(lines[1..], headers[field.name := field.value]);
    }
  }

  // ---------- The declared length ----------

  predicate AllDigits(s: string) { forall i :: 0 <= i < |s| ==> IsDigit(s[i]) }

  function DecimalValue(s: string): nat
    requires AllDigits(s)
  {
    if s == [] then 0 else DecimalValue(s[..|s| - 1]) * 10 + (s[|s| - 1] as int - '0' as int)
  }

  /** The target's `usize` has 64 bits. */
  const USIZE_LIMIT: nat := 0x1_0000_0000_0000_0000

  function DeclaredLength(method_: string, headers: map<string, string>): (r: Result<nat>)
    ensures r.Err? ==> r.error == InvalidContentLength || r.error == LengthRequired
  {
    if "content-length" in headers then
      var value := headers["content-length"];
      if value == [] || !AllDigits(value) then Err(InvalidContentLength)
      else if DecimalValue(value) >= USIZE_LIMIT then Err(InvalidContentLength)
      else Ok(DecimalValue(value))
    else if method_ in {"POST", "PUT", "PATCH"} then Err(LengthRequired)
    else Ok(0)
  }

  function RequestBodyLimit(path: string): (limit: nat)
    ensures limit <= MAX_REQUEST_BODY_BYTES
  {
    if path in {"/api/clipboard", "/api/compress", "/api/prepare-input"} then MAX_REQUEST_BODY_BYTES
    else MAX_SETTINGS_BODY_BYTES
  }

  // ---------- The whole header block ----------

  datatype Head = Head(method_: string, path: string, headers: map<string, string>, length: nat)

  /** What the bytes before the blank line say. */
  function ParseHead(bytes: seq<Utf8.Byte>): (r: Result<Head>)
    ensures r.Err? ==> r.error != HeadersTooLarge
  {
    match Utf8.FromUtf8(bytes)
    case Error(_, _) => Err(NotUtf8)
    case Valid(text) => ParseLines(Lines(text))
  }

  function ParseLines(lines: seq<string>): (r: Result<Head>)
    ensures r.Err? ==> r.error != HeadersTooLarge
  {
    if lines == [] then Err(MissingRequestLine)
    else
      match ParseRequestLine(lines[0])
      case Err(error) => Err(error)
      case Ok(start) =>
        AddFieldsError(lines[1..], map[]);
        match AddFields(lines[1..], map[])
        case Err(error) => Err(error)
        case Ok(headers) =>
          if "transfer-encoding" in headers then Err(TransferEncoding)
          else
            match DeclaredLength(start.0, headers)
            case Err(error) => Err(error)
            case Ok(length) =>
              if length > RequestBodyLimit(PathOf(start.1)) then Err(BodyTooLarge)
              else Ok(Head(start.0, PathOf(start.1), headers, length))
  }

  lemma {:induction false} AddFieldsError(lines: seq<string>, headers: map<string, string>)
    ensures AddFields(lines, headers).Err? ==> AddFields(lines, headers).error != HeadersTooLarge
    decreases |lines|
  {
    hide ParseField;
    if lines != [] && ParseField(lines[0]).Ok? {
      var field := ParseField(lines[0]).value;
      AddFieldsError(lines[1..], headers[field.name := field.value]);
    }
  }

  /** What an accepted header block guarantees. */
  ghost predicate IsSound(head: Head) {
    && IsMethod(head.method_)
    && head.path != [] && head.path[0] == '/' && '?' !in head.path
    && (forall name :: name in head.headers ==> IsLowerName(name))
    && "transfer-encoding" !in head.headers
    && head.length <= RequestBodyLimit(head.path)
    && ("content-length" in head.headers ==>
         var value := head.headers["content-length"];
         value != [] && AllDigits(value) && DecimalValue(value) == head.length)
    && ("content-length" !in head.headers ==> head.length == 0 && head.method_ !in {"POST", "PUT", "PATCH"})
  }

  lemma AcceptedHead(lines: seq<string>)
    requires ParseLines(lines).Ok?
    ensures IsSound(ParseLines(lines).value)
    ensures Holds(lines[1..], ParseLines(lines).value.headers)
  {
    hide AddFields, ParseField, Words, DecimalValue, PathOf;
    AcceptedHeaders(lines[1..], ParseLines(lines).value.headers);
  }
}
