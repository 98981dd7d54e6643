/** Reading HTTP/1.1 messages line by line: requests, responses and chunked bodies. */
module HttpRead {

  import opened Options
  import opened Text
  import opened Numbers

  datatype Error = BadRequestLine | EmptyRequest | BadStatusLine | BadStatus | ShortBody

  datatype Result<T> = Ok(value: T) | Err(error: Error)

  datatype Request = Request(verb: string, path: string, query: string, headers: map<string, string>, body: string)

  datatype Response = Response(status: nat, text: string, headers: map<string, string>, body: string)

  // Lines and words.

  /** The next line with its line break, if it has one; nothing at the end of the input. */
  function NextLine(s: string): string
  {
    if s == "" then "" else s[..FirstLine(s)]
  }

  function AfterLine(s: string): string
  {
    if s == "" then "" else s[FirstLine(s)..]
  }

  function LowerChar(c: char): char
  {
    if 'A' <= c <= 'Z' then (c as int + 32) as char else c
  }

  function Lower(s: string): string
  {
    seq(|s|, i requires 0 <= i < |s| => LowerChar(s[i]))
  }

  // The head of a message.

  /** What has been collected from the header lines so far. */
  datatype Head = Head(headers: map<string, string>, length: Option<nat>, chunked: bool)

  const NO_HEADERS := Head(map[], None, false)

  function KeyOf(line: string): string { Lower(Trim(Before(line, ':'))) }

  function ValueOf(line: string): string { Trim(Behind(line, ':')) }

  predicate HasColon(line: string) { IndexOf(line, ':') >= 0 }

  /** One trimmed header line; a line without a colon is ignored, a repeated key overwrites. */
  function AddLine(h: Head, line: string): Head
  {
    if !HasColon(line) then h
    else
      var key, val := KeyOf(line), ValueOf(line);
      Head(h.headers[key := val],
           if key == "content-length" then Parse(val, 10, MAX_U64) else h.length,
           h.chunked || (key == "transfer-encoding" && Contains(Lower(val), "chunked")))
  }

  /** The header lines up to the first blank one, or the end of the input. */
  function ReadHead(s: string, h: Head): Head
    decreases |s|
  {
    var line := Trim(NextLine(s));
    if s == "" || line == "" then h else ReadHead(AfterLine(s), AddLine(h, line))
  }

  function AfterHead(s: string): string
    decreases |s|
  {
    if s == "" || Trim(NextLine(s)) == "" then AfterLine(s) else AfterHead(AfterLine(s))
  }

  // Requests.

  datatype Target = Target(verb: string, full: string)

  /** The first two words of a trimmed request line. */
  function RequestLine(line: string): Result<Target>
  {
    if IndexOf(line, ' ') < 0 then Err(BadRequestLine)
    else Ok(Target(Before(line, ' '), Before(Behind(line, ' '), ' ')))
  }

  /** The request made of its first line, its headers and the input after them. */
  function WithBody(t: Target, h: Head, rest: string): Result<Request>
  {
    var n := if h.length.Some? then h.length.value else 0;
    if n > |rest| then Err(ShortBody)
    else Ok(Request(t.verb, Before(t.full, '?'), Behind(t.full, '?'), h.headers, rest[..n]))
  }

  function Plain(s: string): Result<Request>
  {
    match RequestLine(Trim(NextLine(s)))
    case Err(e) => Err(e)
    case Ok(t) => WithBody(t, ReadHead(AfterLine(s), NO_HEADERS), AfterHead(AfterLine(s)))
  }

  /** The parser used on plain connections: it reads line by line. */
  method ParseHttpRequestFromReader(s: string) returns (r: Result<Request>)
    ensures r == Plain(s)
  {
    var rest := s;
    var line := NextLine(rest);
    rest := AfterLine(rest);
    var parts := RequestLine(Trim(line));
    if parts.Err? {
      return Err(parts.error);
    }
    var h;
    h, rest := ReadHeaders(rest);
    return WithBody(parts.value, h, rest);
  }

  /** The loop over header lines, shared by requests and responses. */
  method ReadHeaders(s: string) returns (h: Head, rest: string)
    ensures h == ReadHead(s, NO_HEADERS) && rest == AfterHead(s)
  {
    h, rest := NO_HEADERS, s;
    while true
      invariant ReadHead(rest, h) == ReadHead(s, NO_HEADERS)
      invariant AfterHead(rest) == AfterHead(s)
      decreases |rest|
    {
      var trimmed := Trim(NextLine(rest));
      if trimmed == "" {
        rest := AfterLine(rest);
        return;
      }
      rest := AfterLine(rest);
      if HasColon(trimmed) {
        h := AddLine(h, trimmed);
      }
    }
  }

  // The parser used on TLS connections.

  const BLANK := "\r\n\r\n"

  /** Where the head ends: behind the first blank line, or at the end of the input. */
  function HeadEnd(s: string): (e: nat)
    ensures e <= |s|
  {
    var i := Find(s, BLANK, 0);
    if i < 0 then |s| else i + 4
  }

  /** A line without its line break. */
  function Chomp(line: string): string
  {
    if line != "" && line[|line| - 1] == '\n' then
      if |line| > 1 && line[|line| - 2] == '\r' then line[..|line| - 2] else line[..|line| - 1]
    else line
  }

  function TakeHead(lines: seq<string>, h: Head): Head
    decreases lines
  {
    if lines == [] || Trim(Chomp(lines[0])) == "" then h
    else TakeHead(lines[1..], AddLine(h, Trim(Chomp(lines[0]))))
  }

  function Tls(s: string): Result<Request>
  {
    var e := HeadEnd(s);
    var lines := Lines(s[..e]);
    if lines == [] then Err(EmptyRequest)
    else
      match RequestLine(Trim(Chomp(lines[0])))
      case Err(error) => Err(error)
      case Ok(t) => WithBody(t, TakeHead(lines[1..], NO_HEADERS), s[e..])
  }

  predicate EndsBlank(s: string, e: nat)
  {
    4 <= e <= |s| && s[e - 4] == '\r' && s[e - 3] == '\n' && s[e - 2] == '\r' && s[e - 1] == '\n'
  }

  lemma {:induction false} EndsBlankOccurs(s: string, e: nat)
    requires e <= |s|
    ensures EndsBlank(s, e) <==> OccursAt(s, BLANK, e - 4)
  {
    if EndsBlank(s, e) {
      forall k | 0 <= k < |BLANK| ensures s[e - 4 + k] == BLANK[k] {
        assert k == 0 || k == 1 || k == 2 || k == 3;
      }
    }
    if OccursAt(s, BLANK, e - 4) {
      BlankHere(s, e - 4);
    }
  }

  /** Where a blank line occurs there are two line breaks in a row. */
  lemma {:induction false} BlankHere(s: string, i: int)
    requires OccursAt(s, BLANK, i)
    ensures s[i] == '\r' && s[i + 1] == '\n' && s[i + 2] == '\r' && s[i + 3] == '\n'
  {
    assert s[i + 0] == BLANK[0] && s[i + 1] == BLANK[1] && s[i + 2] == BLANK[2] && s[i + 3] == BLANK[3];
  }

  lemma {:induction false} FindIs(s: string, t: string, from: nat, i: int)
    requires from <= i && OccursAt(s, t, i) && forall j :: from <= j < i ==> !OccursAt(s, t, j)
    ensures Find(s, t, from) == i
    decreases |s| - from
  {
    if from < i { FindIs(s, t, from + 1, i); }
  }

  lemma {:induction false} FindNot(s: string, t: string, from: nat)
    requires forall j :: from <= j <= |s| ==> !OccursAt(s, t, j)
    ensures Find(s, t, from) == -1
    decreases |s| - from
  {
    if from <= |s| { FindNot(s, t, from + 1); }
  }

  /** Takes in the head byte by byte until it ends in a blank line. */
  method ReadTlsHead(s: string) returns (e: nat)
    ensures e == HeadEnd(s)
  {
    e := 0;
    var ended := false;
    while !ended && e < |s|
      invariant e <= |s|
      invariant forall d: nat :: d < e ==> !EndsBlank(s, d)
      invariant ended == EndsBlank(s, e)
      decreases |s| - e
    {
      e := e + 1;
      if e >= 4 && s[e - 4] == '\r' && s[e - 3] == '\n' && s[e - 2] == '\r' && s[e - 1] == '\n' {
        ended := true;
      }
    }
    forall j | 0 <= j && j + 4 < e ensures !OccursAt(s, BLANK, j) {
      EndsBlankOccurs(s, j + 4);
    }
    EndsBlankOccurs(s, e);
    if ended {
      FindIs(s, BLANK, 0, e - 4);
    } else {
      FindNot(s, BLANK, 0);
    }
  }

  method ParseTlsRequest(s: string) returns (r: Result<Request>)
    ensures r == Tls(s)
  {
    var e := ReadTlsHead(s);
    var lines := Lines(s[..e]);
    if lines == [] {
      return Err(EmptyRequest);
    }
    var parts := RequestLine(Trim(Chomp(lines[0])));
    if parts.Err? {
      return Err(parts.error);
    }
    var h := NO_HEADERS;
    var i := 1;
    while i < |lines|
      invariant 1 <= i <= |lines|
      invariant TakeHead(lines[i..], h) == TakeHead(lines[1..], NO_HEADERS)
    {
      var trimmed := Trim(Chomp(lines[i]));
      assert lines[i..][0] == lines[i] && lines[i..][1..] == lines[i + 1..];
      if trimmed == "" {
        break;
      }
      h := AddLine(h, trimmed);
      i := i + 1;
    }
    return WithBody(parts.value, h, s[e..]);
  }

  // Responses.

  datatype Status = Status(code: nat, text: string)

  function StatusLine(line: string): Result<Status>
  {
    if IndexOf(line, ' ') < 0 then Err(BadStatusLine)
    else
      match Parse(Before(Behind(line, ' '), ' '), 10, MAX_U16)
      case None => Err(BadStatus)
      case Some(code) => Ok(Status(code, Behind(Behind(line, ' '), ' ')))
  }

  function ChunkSize(line: string): nat
  {
    match Parse(Trim(line), 16, MAX_U64)
    case None => 0
    case Some(n) => n
  }

  /** The chunks from here on, added to what was read before. */
  function Chunks(s: string, body: string): Result<string>
    decreases |s|
  {
    var n, rest := ChunkSize(NextLine(s)), AfterLine(s);
    if n == 0 || s == "" then Ok(body)
    else if n > |rest| then Err(ShortBody)
    else Chunks(AfterLine(rest[n..]), body + rest[..n])
  }

  function BodyOf(h: Head, rest: string): Result<string>
  {
    if h.chunked then Chunks(rest, "")
    else if h.length.Some? then (if h.length.value > |rest| then Err(ShortBody) else Ok(rest[..h.length.value]))
    else Ok(rest)
  }

  function ReadResponse(s: string): Result<Response>
  {
    match StatusLine(Trim(NextLine(s)))
    case Err(e) => Err(e)
    case Ok(status) =>
      var h := ReadHead(AfterLine(s), NO_HEADERS);
      match BodyOf(h, AfterHead(AfterLine(s)))
      case Err(e) => Err(e)
      case Ok(body) => Ok(Response(status.code, status.text, h.headers, body))
  }

  method ReadChunkedBody(s: string) returns (r: Result<string>)
    ensures r == Chunks(s, "")
  {
    var rest, body := s, "";
    while true
      invariant Chunks(rest, body) == Chunks(s, "")
      decreases |rest|
    {
      var n := ChunkSize(NextLine(rest));
      if n == 0 {
        return Ok(body);
      }
      EmptyIsZero();
      rest := AfterLine(rest);
      if n > |rest| {
        return Err(ShortBody);
      }
      body := body + rest[..n];
      rest := AfterLine(rest[n..]);
    }
  }

  lemma {:induction false} EmptyIsZero()
    ensures ChunkSize("") == 0
  {
    assert Trim("") == "";
  }

  method ReadHttpResponse(s: string) returns (r: Result<Response>)
    ensures r == ReadResponse(s)
  {
    var status := StatusLine(Trim(NextLine(s)));
    if status.Err? {
      return Err(status.error);
    }
    var h, rest := ReadHeaders(AfterLine(s));
    var body: Result<string>;
    if h.chunked {
      body := ReadChunkedBody(rest);
    } else if h.length.Some? {
      body := if h.length.value > |rest| then Err(ShortBody) else Ok(rest[..h.length.value]);
    } else {
      body := Ok(rest);
    }
    if body.Err? {
      return Err(body.error);
    }
    return Ok(Response(status.value.code, status.value.text, h.headers, body.value));
  }
}
