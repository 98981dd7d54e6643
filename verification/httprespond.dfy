/** Responses and chunked bodies: what a server writes, a client reads. */
module HttpRespond {

  import opened Options
  import opened Sequences
  import opened Text
  import opened Numbers
  import opened HttpRead
  import opened HttpText
  import opened HttpWrite

  /** The reason phrase of a status code. */
  function StatusText(code: nat): string
  {
    match code
    case 200 => "OK"
    case 201 => "Created"
    case 204 => "No Content"
    case 301 => "Moved Permanently"
    case 302 => "Found"
    case 304 => "Not Modified"
    case 400 => "Bad Request"
    case 401 => "Unauthorized"
    case 403 => "Forbidden"
    case 404 => "Not Found"
    case 405 => "Method Not Allowed"
    case 409 => "Conflict"
    case 500 => "Internal Server Error"
    case 502 => "Bad Gateway"
    case 503 => "Service Unavailable"
    case _ => "Unknown"
  }

  /** The reason phrases of section 15 of RFC 9110 that are known here. */
  lemma {:induction false} Reasons()
    ensures StatusText(200) == "OK" && StatusText(201) == "Created" && StatusText(204) == "No Content"
    ensures StatusText(301) == "Moved Permanently" && StatusText(302) == "Found" && StatusText(304) == "Not Modified"
  {
  }

  lemma {:induction false} ErrorReasons()
    ensures StatusText(400) == "Bad Request" && StatusText(401) == "Unauthorized" && StatusText(403) == "Forbidden"
    ensures StatusText(404) == "Not Found" && StatusText(405) == "Method Not Allowed" && StatusText(409) == "Conflict"
  {
  }

  lemma {:induction false} ServerReasons()
    ensures StatusText(500) == "Internal Server Error" && StatusText(502) == "Bad Gateway"
    ensures StatusText(503) == "Service Unavailable"
  {
  }

  function FirstResponseLine(code: nat): string
  {
    VERSION + [' '] + (Print(code, 10) + [' '] + StatusText(code))
  }

  /** The length, the headers of the particular response, and that the connection closes. */
  function ResponseHeaders(body: string, fields: seq<string>): seq<string>
  {
    [LengthField(body)] + fields + ["Connection: close"]
  }

  function CustomFields(headers: seq<(string, string)>): seq<string>
  {
    if headers == [] then []
    else CustomFields(headers[..|headers| - 1]) + [Field(headers[|headers| - 1].0, headers[|headers| - 1].1)]
  }

  lemma {:induction false} ThreeSent(body: string, content: string)
    ensures Sent(ResponseHeaders(body, [content])) == LengthField(body) + CRLF + content + CRLF + "Connection: close" + CRLF
  {
    var length := LengthField(body);
    SentMore([], length);
    SentMore([length], content);
    SentMore([length] + [content], "Connection: close");
    assert [] + [length] == [length] && Sent([]) == "";
  }

  const CONTENT_TYPE := "Content-Type"

  method ServerRespond(code: nat, kind: string, body: string) returns (r: string)
    ensures r == MessageText(FirstResponseLine(code), ResponseHeaders(body, [Field(CONTENT_TYPE, kind)]), body)
  {
    r := VERSION + " " + (Print(code, 10) + " " + StatusText(code)) + "\r\n";
    var content := Field(CONTENT_TYPE, kind);
    var headers := LengthField(body) + CRLF + content + CRLF + "Connection: close" + CRLF;
    ThreeSent(body, content);
    SentIsHead(ResponseHeaders(body, [Field(CONTENT_TYPE, kind)]), body);
    r := r + headers + "\r\n" + body;
    assert r == FirstResponseLine(code) + CRLF + (headers + CRLF + body);
  }

  method ServerRespondHeaders(code: nat, custom: seq<(string, string)>, body: string) returns (r: string)
    ensures r == MessageText(FirstResponseLine(code), ResponseHeaders(body, CustomFields(custom)), body)
  {
    ghost var length := LengthField(body);
    var headers := "Content-Length: " + Print(|body|, 10) + "\r\n";
    SentMore([], length);
    assert [] + [length] == [length] && Sent([]) == "" && custom[..0] == [];
    assert [length] + [] == [length];
    var i := 0;
    while i < |custom|
      invariant i <= |custom| && headers == Sent([length] + CustomFields(custom[..i]))
    {
      ghost var line := Field(custom[i].0, custom[i].1);
      assert custom[..i + 1][..i] == custom[..i];
      assert [length] + (CustomFields(custom[..i]) + [line]) == ([length] + CustomFields(custom[..i])) + [line];
      SentMore([length] + CustomFields(custom[..i]), line);
      headers := headers + (custom[i].0 + ": " + custom[i].1) + "\r\n";
      i := i + 1;
    }
    assert custom[..i] == custom;
    SentMore([length] + CustomFields(custom), "Connection: close");
    headers := headers + "Connection: close" + "\r\n";
    SentIsHead(ResponseHeaders(body, CustomFields(custom)), body);
    r := VERSION + " " + (Print(code, 10) + " " + StatusText(code)) + "\r\n" + headers + "\r\n" + body;
    assert r == FirstResponseLine(code) + CRLF + (headers + CRLF + body);
  }

  // The client reads what the server wrote.

  predicate Reason(s: string)
  {
    s != "" && !IsSpace(s[|s| - 1]) && '\n' !in s
  }

  lemma {:induction false} StatusTextIsReason(code: nat)
    ensures Reason(StatusText(code))
  {
    if code < 400 { NoErrorReason(code); } else if code < 404 { RequestReason(code); } else { ErrorReason(code); }
  }

  lemma {:induction false} NoErrorReason(code: nat)
    requires code < 400
    ensures Reason(StatusText(code))
  {
  }

  lemma {:induction false} RequestReason(code: nat)
    requires 400 <= code < 404
    ensures Reason(StatusText(code))
  {
  }

  lemma {:induction false} ErrorReason(code: nat)
    requires 404 <= code
    ensures Reason(StatusText(code))
  {
  }

  lemma {:induction false} FirstResponseRead(code: nat)
    requires code <= MAX_U16
    ensures StatusLine(Trim(FirstResponseLine(code))) == Ok(Status(code, StatusText(code)))
    ensures '\n' !in FirstResponseLine(code)
  {
    var n, reason := Print(code, 10), StatusText(code);
    var later := n + [' '] + reason;
    StatusTextIsReason(code);
    PrintDigits(code, 10);
    PrintParse(code, 10, MAX_U16);
    VersionPlain();
    DigitsHaveNoSpace(n);
    assert Token(VERSION);
    hide Trim, IndexOf, Print, StatusText, Parse, Token;
    LastOf(n + [' '], reason);
    FirstLineTrimmed(VERSION, later);
    SplitAt(VERSION, ' ', later);
    SplitAt(n, ' ', reason);
  }

  lemma {:induction false} DigitsHaveNoSpace(n: string)
    requires forall i :: 0 <= i < |n| ==> IsDigitChar(n[i])
    ensures ' ' !in n && '\n' !in n
  {
  }

  /** The response read from a status line, header lines and what follows them. */
  function Answered(code: nat, lines: seq<string>, rest: string): Result<Response>
  {
    var h := Collect(NO_HEADERS, lines);
    match BodyOf(h, rest)
    case Err(e) => Err(e)
    case Ok(body) => Ok(Response(code, StatusText(code), h.headers, body))
  }

  lemma {:induction false} ResponseReads(code: nat, lines: seq<string>, rest: string)
    requires code <= MAX_U16 && HeaderLines(lines)
    ensures ReadResponse(MessageText(FirstResponseLine(code), lines, rest)) == Answered(code, lines, rest)
  {
    var first := FirstResponseLine(code);
    FirstResponseRead(code);
    LineRead(first, HeadText(lines, rest));
    TrimCrlf(first);
    HeadReadBack(lines, rest, NO_HEADERS);
  }

  /** Header lines of a response that say nothing about how its body is framed. */
  predicate Unframed(fields: seq<string>)
  {
    HeaderLines(fields) && Free(fields, "content-length") && Free(fields, "transfer-encoding")
  }

  lemma {:induction false} ResponseLines(body: string, fields: seq<string>)
    requires |body| <= MAX_U64 && HeaderLines(fields)
    ensures HeaderLines(ResponseHeaders(body, fields))
  {
    LengthRead(body);
    ConnectionRead();
    Together([LengthField(body)], fields);
    Together([LengthField(body)] + fields, ["Connection: close"]);
  }

  lemma {:induction false} ResponseFraming(body: string, fields: seq<string>)
    requires |body| <= MAX_U64 && Unframed(fields)
    ensures HeaderLines(ResponseHeaders(body, fields))
    ensures Collect(NO_HEADERS, ResponseHeaders(body, fields)).length == Some(|body|)
    ensures !Collect(NO_HEADERS, ResponseHeaders(body, fields)).chunked
  {
    LengthRead(body);
    ResponseLines(body, fields);
    FreeMore(fields, "content-length");
    FreeMore(fields, "transfer-encoding");
    var later := fields + ["Connection: close"];
    var h := AddLine(NO_HEADERS, Trim(LengthField(body)));
    CollectKeeps(h, later, "content-length");
    CollectKeeps(h, later, "transfer-encoding");
    FirstCollected(LengthField(body), fields, later);
  }

  lemma {:induction false} FirstCollected(line: string, fields: seq<string>, later: seq<string>)
    requires later == fields + ["Connection: close"]
    ensures Collect(NO_HEADERS, [line] + fields + ["Connection: close"]) == Collect(AddLine(NO_HEADERS, Trim(line)), later)
  {
    assert [line] + fields + ["Connection: close"] == [line] + later;
    assert ([line] + later)[1..] == later;
  }

  lemma {:induction false} FreeMore(fields: seq<string>, key: string)
    requires Free(fields, key) && key != "connection"
    ensures Free(fields + ["Connection: close"], key)
  {
    ConnectionRead();
  }

  /** Every response is read back: its status, its reason, its headers and its body. */
  lemma {:induction false} ResponseRoundTrip(code: nat, body: string, fields: seq<string>, text: string)
    requires code <= MAX_U16 && |body| <= MAX_U64 && Unframed(fields)
    requires text == MessageText(FirstResponseLine(code), ResponseHeaders(body, fields), body)
    ensures ReadResponse(text) ==
            Ok(Response(code, StatusText(code), Collect(NO_HEADERS, ResponseHeaders(body, fields)).headers, body))
  {
    ResponseFraming(body, fields);
    ResponseReads(code, ResponseHeaders(body, fields), body);
    assert body[..|body|] == body;
  }

  // What the writers send is read back.

  lemma {:induction false} TypePlain()
    ensures ':' !in CONTENT_TYPE && '\n' !in CONTENT_TYPE && Trim(CONTENT_TYPE) == CONTENT_TYPE
  {
    TrimNothing(CONTENT_TYPE);
  }

  lemma {:induction false} TypeLower()
    ensures Lower(CONTENT_TYPE) == "content-type"
  {
    var low := "content-type";
    assert |Lower(CONTENT_TYPE)| == |low|;
    assert forall i :: 0 <= i < |low| ==> Lower(CONTENT_TYPE)[i] == low[i];
  }

  lemma {:induction false} TypeKey()
    ensures FieldKey(CONTENT_TYPE) == "content-type"
  {
    TypePlain();
    TypeLower();
    IndexNone(CONTENT_TYPE, ':');
  }

  lemma {:induction false} TypeUnframed(kind: string)
    requires '\n' !in kind
    ensures Unframed([Field(CONTENT_TYPE, kind)])
  {
    TypePlain();
    TypeKey();
    FieldUnframed(CONTENT_TYPE, kind);
  }

  /** The client recovers what the text and the binary writer send. */
  lemma {:induction false} ServedRead(code: nat, kind: string, body: string, text: string)
    requires code <= MAX_U16 && |body| <= MAX_U64 && '\n' !in kind
    requires text == MessageText(FirstResponseLine(code), ResponseHeaders(body, [Field(CONTENT_TYPE, kind)]), body)
    ensures ReadResponse(text).Ok?
    ensures ReadResponse(text).value.status == code && ReadResponse(text).value.text == StatusText(code)
    ensures ReadResponse(text).value.body == body
    ensures HasHeader(ReadResponse(text).value.headers, "content-type", Trim(kind))
    ensures HasHeader(ReadResponse(text).value.headers, "connection", "close")
    ensures HasHeader(ReadResponse(text).value.headers, "content-length", Print(|body|, 10))
  {
    TypeUnframed(kind);
    ResponseRoundTrip(code, body, [Field(CONTENT_TYPE, kind)], text);
    ServedHeaders(kind, body, Collect(NO_HEADERS, ResponseHeaders(body, [Field(CONTENT_TYPE, kind)])));
  }

  lemma {:induction false} TypeRead(kind: string)
    ensures HasColon(Trim(Field(CONTENT_TYPE, kind))) && KeyOf(Trim(Field(CONTENT_TYPE, kind))) == "content-type"
    ensures ValueOf(Trim(Field(CONTENT_TYPE, kind))) == Trim(kind)
  {
    TypePlain();
    TypeLower();
    TypeIsName();
    FieldRead(CONTENT_TYPE, kind);
  }

  lemma {:induction false} TypeIsName()
    ensures FieldName(CONTENT_TYPE)
  {
  }

  lemma {:induction false} LengthValue(body: string)
    ensures HasColon(Trim(LengthField(body))) && KeyOf(Trim(LengthField(body))) == "content-length"
    ensures ValueOf(Trim(LengthField(body))) == Print(|body|, 10)
  {
    LengthName();
    FieldRead("Content-Length", Print(|body|, 10));
    PrintDigits(|body|, 10);
    TrimNothing(Print(|body|, 10));
  }

  predicate HasHeader(headers: map<string, string>, key: string, value: string)
  {
    key in headers && headers[key] == value
  }

  /** Three lines with three keys: each is found. */
  lemma {:induction false} ThreeFound(x: string, y: string, z: string, kx: string, ky: string, kz: string)
    requires HasColon(Trim(x)) && HasColon(Trim(y)) && HasColon(Trim(z))
    requires KeyOf(Trim(x)) == kx && KeyOf(Trim(y)) == ky && KeyOf(Trim(z)) == kz && kx != ky && ky != kz && kx != kz
    ensures HasHeader(Collect(NO_HEADERS, [x, y, z]).headers, kx, ValueOf(Trim(x)))
    ensures HasHeader(Collect(NO_HEADERS, [x, y, z]).headers, ky, ValueOf(Trim(y)))
    ensures HasHeader(Collect(NO_HEADERS, [x, y, z]).headers, kz, ValueOf(Trim(z)))
  {
    var lines := [x, y, z];
    hide Trim, KeyOf, ValueOf, HasColon, Collect;
    assert lines[3..] == [] && lines[2..] == [z] && lines[1..] == [y, z];
    CollectFinds(NO_HEADERS, lines, 2);
    CollectFinds(NO_HEADERS, lines, 1);
    CollectFinds(NO_HEADERS, lines, 0);
  }

  lemma {:induction false} KeysDiffer()
    ensures "content-length" != "content-type" && "content-type" != "connection" && "content-length" != "connection"
  {
    assert "content-length"[8] == 'l' && "content-type"[8] == 't' && "connection"[8] == 'o';
  }

  /** The three lines are headers with different keys. */
  lemma {:induction false} ServedKeys(length: string, content: string, close: string, kind: string, body: string)
    requires length == LengthField(body) && content == Field(CONTENT_TYPE, kind) && close == "Connection: close"
    ensures HasColon(Trim(length)) && HasColon(Trim(content)) && HasColon(Trim(close))
    ensures KeyOf(Trim(length)) != KeyOf(Trim(content)) && KeyOf(Trim(content)) != KeyOf(Trim(close))
    ensures KeyOf(Trim(length)) != KeyOf(Trim(close))
  {
    hide Trim, KeyOf, ValueOf, HasColon, Field, LengthField, Print;
    TypeRead(kind);
    ConnectionRead();
    LengthValue(body);
    KeysDiffer();
  }

  lemma {:induction false} ServedHeaders(kind: string, body: string, h: Head)
    requires h == Collect(NO_HEADERS, ResponseHeaders(body, [Field(CONTENT_TYPE, kind)]))
    ensures HasHeader(h.headers, "content-type", Trim(kind)) && HasHeader(h.headers, "connection", "close")
    ensures HasHeader(h.headers, "content-length", Print(|body|, 10))
  {
    var length, content, close := LengthField(body), Field(CONTENT_TYPE, kind), "Connection: close";
    assert ResponseHeaders(body, [content]) == [length, content, close];
    hide Trim, KeyOf, ValueOf, HasColon, Collect, Field, LengthField, Print, HasHeader;
    ServedKeys(length, content, close, kind, body);
    ThreeFound(length, content, close, KeyOf(Trim(length)), KeyOf(Trim(content)), KeyOf(Trim(close)));
    assert HasHeader(h.headers, "content-type", Trim(kind)) by { TypeRead(kind); }
    assert HasHeader(h.headers, "connection", "close") by {
      ConnectionRead();
      CloseRead();
    }
    assert HasHeader(h.headers, "content-length", Print(|body|, 10)) by { LengthValue(body); }
  }

  lemma {:induction false} FieldUnframed(name: string, value: string)
    requires '\n' !in name && '\n' !in value
    requires FieldKey(name) != "content-length" && FieldKey(name) != "transfer-encoding"
    ensures Unframed([Field(name, value)])
  {
    FieldKeyRead(name, value);
    FieldOneLine(name, value);
  }

  // Chunked bodies.

  /** A chunk: its data and the spelling of its size. */
  datatype Chunk = Chunk(size: string, data: string)

  predicate Sized(c: Chunk)
  {
    c.data != "" && '\n' !in c.size && Parse(Trim(c.size), 16, MAX_U64) == Some(|c.data|)
  }

  function ChunkedText(chunks: seq<Chunk>, rest: string): string
  {
    if chunks == [] then "0" + CRLF + rest
    else chunks[0].size + CRLF + (chunks[0].data + (CRLF + ChunkedText(chunks[1..], rest)))
  }

  function Joined(chunks: seq<Chunk>): string
  {
    if chunks == [] then "" else chunks[0].data + Joined(chunks[1..])
  }

  lemma {:induction false} SizeRead(size: string, rest: string)
    requires '\n' !in size
    ensures ChunkSize(NextLine(size + CRLF + rest)) == ChunkSize(size)
    ensures AfterLine(size + CRLF + rest) == rest
  {
    LineRead(size, rest);
    TrimCrlf(size);
  }

  lemma {:induction false} OneChunk(c: Chunk, later: string, body: string)
    requires Sized(c)
    ensures Chunks(c.size + CRLF + (c.data + (CRLF + later)), body) == Chunks(later, body + c.data)
  {
    var rest := c.data + (CRLF + later);
    SizeRead(c.size, rest);
    assert rest[..|c.data|] == c.data && rest[|c.data|..] == CRLF + later;
    assert CRLF + later == "" + CRLF + later;
    LineRead("", later);
  }

  lemma {:induction false} ZeroRead()
    ensures ChunkSize("0") == 0
  {
    TrimNothing("0");
    assert "0"[..0] == "";
    assert Value("", 16, MAX_U64) == Some(0);
    assert Value("0", 16, MAX_U64) == Some(0);
  }

  lemma {:induction false} LastChunk(rest: string, body: string)
    ensures Chunks("0" + CRLF + rest, body) == Ok(body)
  {
    SizeRead("0", rest);
    ZeroRead();
  }

  /** The chunked reader puts the chunks together again, however the body was split. */
  lemma {:induction false} ChunksRead(chunks: seq<Chunk>, rest: string, body: string)
    requires forall i :: 0 <= i < |chunks| ==> Sized(chunks[i])
    ensures Chunks(ChunkedText(chunks, rest), body) == Ok(body + Joined(chunks))
    decreases chunks
  {
    if chunks == [] {
      LastChunk(rest, body);
      assert body + "" == body;
    } else {
      var c, later := chunks[0], chunks[1..];
      OneChunk(c, ChunkedText(later, rest), body);
      ChunksRead(later, rest, body + c.data);
      Regroup(body, c.data, Joined(later));
    }
  }

  /** Every body and every way to cut it into pieces has such a spelling. */
  lemma {:induction false} PrintedSize(data: string)
    requires data != "" && |data| <= MAX_U64
    ensures Sized(Chunk(Print(|data|, 16), data))
  {
    var n := Print(|data|, 16);
    PrintDigits(|data|, 16);
    DigitsHaveNoSpace(n);
    TrimNothing(n);
    PrintParse(|data|, 16, MAX_U64);
  }

  const ENCODING := "Transfer-Encoding"
  const CHUNKED := "chunked"

  lemma {:induction false} EncodingName()
    ensures FieldName(ENCODING) && Lower(Trim(ENCODING)) == "transfer-encoding"
  {
    TrimNothing(ENCODING);
    assert Lower(ENCODING) == "transfer-encoding";
  }

  lemma {:induction false} ChunkedValue()
    ensures Contains(Lower(Trim(CHUNKED)), "chunked") && '\n' !in CHUNKED
  {
    TrimNothing(CHUNKED);
    assert Lower(CHUNKED) == "chunked";
    assert OccursAt("chunked", "chunked", 0);
    FindIs("chunked", "chunked", 0, 0);
  }

  function ChunkedField(): string { Field(ENCODING, CHUNKED) }

  lemma {:induction false} ChunkedHeader()
    ensures HeaderLine(ChunkedField()) && forall h :: AddLine(h, Trim(ChunkedField())).chunked
  {
    EncodingName();
    ChunkedValue();
    FieldRead(ENCODING, CHUNKED);
    FieldOneLine(ENCODING, CHUNKED);
  }

  /** In any case, and among other codings, the word announces chunks. */
  lemma {:induction false} ChunkedAnyCase(a: string, word: string, b: string, h: Head)
    requires Lower(word) == CHUNKED && Trim(a + word + b) == a + word + b
    ensures AddLine(h, Trim(Field(ENCODING, a + word + b))).chunked
  {
    var value := a + word + b;
    EncodingName();
    FieldRead(ENCODING, value);
    LowerParts(a, word, b);
    var low := Lower(value);
    assert OccursAt(low, CHUNKED, |a|);
    if Find(low, CHUNKED, 0) < 0 { FindFirst(low, CHUNKED, 0, |a|); }
  }

  lemma {:induction false} LowerParts(a: string, word: string, b: string)
    ensures Lower(a + word + b) == Lower(a) + Lower(word) + Lower(b)
  {
  }

  lemma {:induction false} StaysChunked(h: Head, lines: seq<string>)
    requires h.chunked
    ensures Collect(h, lines).chunked
    decreases lines
  {
    if lines != [] { StaysChunked(AddLine(h, Trim(lines[0])), lines[1..]); }
  }

  /** A body sent in chunks is received like the same body sent with its length. */
  lemma {:induction false} SameBody(code: nat, chunks: seq<Chunk>, fields: seq<string>, rest: string)
    requires code <= MAX_U16 && |Joined(chunks)| <= MAX_U64 && Unframed(fields)
    requires forall i :: 0 <= i < |chunks| ==> Sized(chunks[i])
    ensures ReadResponse(MessageText(FirstResponseLine(code), [ChunkedField()] + fields, ChunkedText(chunks, rest))) ==
            Ok(Response(code, StatusText(code), Collect(NO_HEADERS, [ChunkedField()] + fields).headers, Joined(chunks)))
    ensures ReadResponse(MessageText(FirstResponseLine(code), ResponseHeaders(Joined(chunks), fields), Joined(chunks))) ==
            Ok(Response(code, StatusText(code), Collect(NO_HEADERS, ResponseHeaders(Joined(chunks), fields)).headers, Joined(chunks)))
  {
    ChunkedHeader();
    Together([ChunkedField()], fields);
    ResponseReads(code, [ChunkedField()] + fields, ChunkedText(chunks, rest));
    assert ([ChunkedField()] + fields)[1..] == fields;
    StaysChunked(AddLine(NO_HEADERS, Trim(ChunkedField())), fields);
    ChunksRead(chunks, rest, "");
    assert "" + Joined(chunks) == Joined(chunks);
    ResponseRoundTrip(code, Joined(chunks), fields,
      MessageText(FirstResponseLine(code), ResponseHeaders(Joined(chunks), fields), Joined(chunks)));
  }
}
