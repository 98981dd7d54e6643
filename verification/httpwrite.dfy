/** Writing requests, and reading them back. */
module HttpWrite {

  import opened Options
  import opened Text
  import opened Numbers
  import opened HttpRead
  import opened HttpText
  import opened HttpAgree

  // Requests.

  /** The lines of a block of extra headers that are not blank, trimmed. */
  function Kept(lines: seq<string>): seq<string>
  {
    if lines == [] then [] else KeptOne(lines[0]) + Kept(lines[1..])
  }

  function KeptOne(line: string): seq<string>
  {
    if Trim(Chomp(line)) == "" then [] else [Trim(Chomp(line))]
  }

  function LengthField(body: string): string { Field("Content-Length", Print(|body|, 10)) }

  function FixedLines(host: string, body: string): seq<string>
  {
    [Field("Host", host)] + ["Connection: close"] + if body == "" then [] else [LengthField(body)]
  }

  function RequestHeaders(host: string, body: string, extra: string): seq<string>
  {
    FixedLines(host, body) + Kept(Lines(extra))
  }

  const VERSION := "HTTP/1.1"

  function FirstRequestLine(verb: string, path: string): string
  {
    verb + [' '] + (path + [' '] + VERSION)
  }

  /** Lines as they are sent, without the blank line behind them. */
  function Sent(lines: seq<string>): string
  {
    if lines == [] then "" else lines[0] + CRLF + Sent(lines[1..])
  }

  lemma {:induction false} SentIsHead(lines: seq<string>, rest: string)
    ensures HeadText(lines, rest) == Sent(lines) + CRLF + rest
    decreases lines
  {
    if lines != [] {
      SentIsHead(lines[1..], rest);
    }
  }

  lemma {:induction false} SentMore(lines: seq<string>, line: string)
    ensures Sent(lines + [line]) == Sent(lines) + line + CRLF
  {
    if lines == [] {
      assert [] + [line] == [line] && [line][1..] == [];
      assert Sent([]) == "";
    } else {
      assert (lines + [line])[1..] == lines[1..] + [line];
      SentMore(lines[1..], line);
    }
  }

  lemma {:induction false} KeptMore(lines: seq<string>, line: string)
    ensures Kept(lines + [line]) == Kept(lines) + KeptOne(line)
  {
    if lines == [] {
      assert [] + [line] == [line] && [line][1..] == [] && Kept([]) == [];
    } else {
      assert (lines + [line])[1..] == lines[1..] + [line] && (lines + [line])[0] == lines[0];
      KeptMore(lines[1..], line);
      assert KeptOne(lines[0]) + (Kept(lines[1..]) + KeptOne(line)) == KeptOne(lines[0]) + Kept(lines[1..]) + KeptOne(line);
    }
  }

  lemma {:induction false} KeptNext(more: seq<string>, i: nat)
    requires i < |more|
    ensures Kept(more[..i + 1]) == Kept(more[..i]) + KeptOne(more[i])
  {
    KeptMore(more[..i], more[i]);
    assert more[..i + 1] == more[..i] + [more[i]];
  }

  lemma {:induction false} SentKept(lines: seq<string>, kept: seq<string>, line: string, trimmed: string)
    requires trimmed == Trim(Chomp(line))
    ensures Sent(lines + (kept + KeptOne(line)))
         == if trimmed == "" then Sent(lines + kept) else Sent(lines + kept) + trimmed + CRLF
  {
    if trimmed == "" {
      assert kept + [] == kept;
    } else {
      assert lines + (kept + [trimmed]) == (lines + kept) + [trimmed];
      SentMore(lines + kept, trimmed);
    }
  }

  /** Adds the extra headers, one trimmed line after the other, to a request under way. */
  method PushExtraHeaders(request: string, ghost lines: seq<string>, extra: string) returns (r: string)
    requires request == Sent(lines)
    ensures r == Sent(lines + Kept(Lines(extra)))
  {
    r := request;
    var more := Lines(extra);
    var i := 0;
    assert more[..0] == [] && lines + [] == lines;
    while i < |more|
      invariant i <= |more| && r == Sent(lines + Kept(more[..i]))
    {
      var trimmed := Trim(Chomp(more[i]));
      KeptNext(more, i);
      SentKept(lines, Kept(more[..i]), more[i], trimmed);
      if trimmed != "" {
        r := r + trimmed + "\r\n";
      }
      i := i + 1;
    }
    assert more[..i] == more;
  }

  /** The headers every request has, and the length of its body if it has one. */
  lemma {:induction false} SentOne(line: string)
    ensures Sent([line]) == line + CRLF
  {
    assert [line][1..] == [] && Sent([]) == "";
  }

  method FixedHeaders(host: string, body: string) returns (r: string)
    ensures r == Sent(FixedLines(host, body))
  {
    r := "Host: " + host + "\r\n";
    ghost var lines := [Field("Host", host)];
    SentOne(Field("Host", host));
    assert r == Field("Host", host) + CRLF;
    hide Sent, Print;
    SentMore(lines, "Connection: close");
    r := r + "Connection: close\r\n";
    lines := lines + ["Connection: close"];
    if body != "" {
      SentMore(lines, LengthField(body));
      r := r + "Content-Length: " + Print(|body|, 10) + "\r\n";
    }
  }

  lemma {:induction false} JoinedHead(first: string, headers: string, body: string)
    ensures first + headers + CRLF + body == first + (headers + CRLF + body)
  {
  }

  method BuildRequest(verb: string, host: string, path: string, body: string, extra: string) returns (r: string)
    ensures r == MessageText(FirstRequestLine(verb, path), RequestHeaders(host, body, extra), body)
  {
    r := verb + " " + (path + " " + VERSION) + "\r\n";
    var headers := FixedHeaders(host, body);
    if extra != "" {
      headers := PushExtraHeaders(headers, FixedLines(host, body), extra);
    } else {
      assert Kept(Lines(extra)) == [];
      assert RequestHeaders(host, body, extra) == FixedLines(host, body);
    }
    SentIsHead(RequestHeaders(host, body, extra), body);
    JoinedHead(r, headers, body);
    r := r + headers + "\r\n" + body;
  }

  // The server reads what the client wrote.

  /** A word of the request line: something, without white space. */
  predicate Token(s: string) { s != "" && NoSpace(s) }

  lemma {:induction false} NoSpaceNoBreak(s: string)
    requires NoSpace(s)
    ensures ' ' !in s && '\n' !in s && '\r' !in s
  {
  }

  lemma {:induction false} VersionPlain()
    ensures VERSION[|VERSION| - 1] == '1' && ' ' !in VERSION && '\n' !in VERSION && '\r' !in VERSION
  {
  }

  lemma {:induction false} LastOf(a: string, b: string)
    requires b != ""
    ensures (a + b)[|a + b| - 1] == b[|b| - 1]
  {
  }

  lemma {:induction false} FirstLineTrimmed(verb: string, later: string)
    requires Token(verb) && later != "" && !IsSpace(later[|later| - 1])
    ensures Trim(verb + [' '] + later) == verb + [' '] + later
  {
    LastOf(verb + [' '], later);
    TrimNothing(verb + [' '] + later);
  }

  lemma {:induction false} FirstLineRead(verb: string, path: string)
    requires Token(verb) && NoSpace(path)
    ensures RequestLine(Trim(FirstRequestLine(verb, path))) == Ok(Target(verb, path))
    ensures '\n' !in FirstRequestLine(verb, path) && '\r' !in FirstRequestLine(verb, path)
  {
    var later := path + [' '] + VERSION;
    NoSpaceNoBreak(verb);
    NoSpaceNoBreak(path);
    VersionPlain();
    LastOf(path + [' '], VERSION);
    FirstLineTrimmed(verb, later);
    SplitAt(verb, ' ', later);
    SplitAt(path, ' ', VERSION);
  }

  lemma {:induction false} HostName()
    ensures FieldName("Host") && Lower(Trim("Host")) == "host"
  {
    TrimNothing("Host");
    assert Lower("Host") == "host";
  }

  lemma {:induction false} LengthName()
    ensures FieldName("Content-Length") && Lower(Trim("Content-Length")) == "content-length"
  {
    TrimNothing("Content-Length");
    assert Lower("Content-Length") == "content-length";
  }

  lemma {:induction false} ConnectionName()
    ensures FieldName("Connection") && Lower(Trim("Connection")) == "connection"
  {
    TrimNothing("Connection");
    assert Lower("Connection") == "connection";
  }

  lemma {:induction false} KeptAreHeaders(lines: seq<string>)
    requires forall i :: 0 <= i < |lines| ==> '\n' !in Chomp(lines[i])
    ensures HeaderLines(Kept(lines))
  {
    if lines != [] {
      KeptAreHeaders(lines[1..]);
      var t := Trim(Chomp(lines[0]));
      TrimTwice(Chomp(lines[0]));
      TrimPart(Chomp(lines[0]));
    }
  }

  lemma {:induction false} ChompedLines(s: string)
    ensures forall i :: 0 <= i < |Lines(s)| ==> '\n' !in Chomp(Lines(s)[i])
  {
    if s != "" {
      var n := FirstLine(s);
      FirstLineBreak(s);
      ChompedFirst(s[..n]);
      ChompedLines(s[n..]);
    }
  }

  lemma {:induction false} ChompedFirst(line: string)
    requires forall i :: 0 <= i < |line| - 1 ==> line[i] != '\n'
    ensures '\n' !in Chomp(line)
  {
  }

  lemma {:induction false} LengthRead(body: string)
    requires |body| <= MAX_U64
    ensures HeaderLine(LengthField(body)) && HasColon(Trim(LengthField(body)))
    ensures KeyOf(Trim(LengthField(body))) == "content-length"
    ensures forall h :: AddLine(h, Trim(LengthField(body))).length == Some(|body|)
  {
    var n := Print(|body|, 10);
    LengthName();
    FieldRead("Content-Length", n);
    PrintDigits(|body|, 10);
    TrimNothing(n);
    PrintParse(|body|, 10, MAX_U64);
    FieldOneLine("Content-Length", n);
  }

  lemma {:induction false} FieldOneLine(name: string, value: string)
    requires '\n' !in name && '\n' !in value
    ensures '\n' !in Field(name, value)
  {
  }

  lemma {:induction false} HostRead(host: string)
    requires '\n' !in host
    ensures HeaderLine(Field("Host", host)) && HasColon(Trim(Field("Host", host)))
    ensures KeyOf(Trim(Field("Host", host))) == "host" && ValueOf(Trim(Field("Host", host))) == Trim(host)
  {
    HostName();
    FieldRead("Host", host);
    FieldOneLine("Host", host);
  }

  lemma {:induction false} ConnectionRead()
    ensures HeaderLine("Connection: close") && HasColon(Trim("Connection: close"))
    ensures KeyOf(Trim("Connection: close")) == "connection"
  {
    hide Trim, Lower, FieldName;
    ConnectionName();
    FieldRead("Connection", "close");
    assert Field("Connection", "close") == "Connection: close";
  }

  lemma {:induction false} FixedAreHeaders(host: string, body: string)
    requires '\n' !in host && |body| <= MAX_U64
    ensures HeaderLines(FixedLines(host, body))
  {
    HostRead(host);
    ConnectionRead();
    LengthRead(body);
    Together([Field("Host", host)], ["Connection: close"]);
    Together([Field("Host", host)] + ["Connection: close"], if body == "" then [] else [LengthField(body)]);
  }

  lemma {:induction false} Together(a: seq<string>, b: seq<string>)
    requires HeaderLines(a) && HeaderLines(b)
    ensures HeaderLines(a + b)
  {
  }

  /** The head the server collects from the fixed headers alone. */
  lemma {:induction false} CloseRead()
    ensures ValueOf(Trim("Connection: close")) == "close"
  {
    ConnectionName();
    FieldRead("Connection", "close");
    assert Field("Connection", "close") == "Connection: close";
    TrimNothing("close");
  }

  lemma {:induction false} FixedLength(host: string, body: string)
    requires '\n' !in host && |body| <= MAX_U64
    ensures Collect(NO_HEADERS, FixedLines(host, body)).length == if body == "" then None else Some(|body|)
    ensures "host" in Collect(NO_HEADERS, FixedLines(host, body)).headers
    ensures Collect(NO_HEADERS, FixedLines(host, body)).headers["host"] == Trim(host)
    ensures "connection" in Collect(NO_HEADERS, FixedLines(host, body)).headers
    ensures Collect(NO_HEADERS, FixedLines(host, body)).headers["connection"] == "close"
  {
    HostRead(host);
    ConnectionRead();
    CloseRead();
    var two := [Field("Host", host)] + ["Connection: close"];
    var h1 := AddLine(NO_HEADERS, Trim(Field("Host", host)));
    var h2 := AddLine(h1, Trim("Connection: close"));
    assert two[0] == Field("Host", host) && two[1..] == ["Connection: close"] && ["Connection: close"][1..] == [];
    assert Collect(NO_HEADERS, two) == h2;
    if body == "" {
      assert two + [] == two;
    } else {
      LengthRead(body);
      CollectAppend(NO_HEADERS, two, [LengthField(body)]);
      assert [LengthField(body)][1..] == [];
      assert Collect(h2, [LengthField(body)]) == AddLine(h2, Trim(LengthField(body)));
    }
  }

  lemma {:induction false} RequestIsReadable(host: string, body: string, extra: string)
    requires '\n' !in host && |body| <= MAX_U64
    ensures HeaderLines(RequestHeaders(host, body, extra))
  {
    FixedAreHeaders(host, body);
    ChompedLines(extra);
    KeptAreHeaders(Lines(extra));
    Together(FixedLines(host, body), Kept(Lines(extra)));
  }

  /** What the server collects from a request's headers. */
  function HeadSent(host: string, body: string, extra: string): Head
  {
    Collect(NO_HEADERS, RequestHeaders(host, body, extra))
  }

  /**
   * The server reads back the method, path and query of every request, and its body
   * exactly when the headers, extra ones included, end up announcing its length.
   */
  lemma {:induction false} RequestReadBack(verb: string, host: string, path: string, body: string, extra: string, text: string)
    requires Token(verb) && NoSpace(path) && '\n' !in host && |body| <= MAX_U64
    requires text == MessageText(FirstRequestLine(verb, path), RequestHeaders(host, body, extra), body)
    ensures Plain(text) == Ok(Request(verb, Before(path, '?'), Behind(path, '?'), HeadSent(host, body, extra).headers, body))
       <==> LengthOf(HeadSent(host, body, extra)) == |body|
  {
    RequestIsReadable(host, body, extra);
    FirstLineRead(verb, path);
    PlainReads(FirstRequestLine(verb, path), RequestHeaders(host, body, extra), body);
    var n := LengthOf(HeadSent(host, body, extra));
    if n == |body| { assert body[..n] == body; }
  }

  /** Extra headers that say nothing about the length leave the body intact. */
  lemma {:induction false} RequestRoundTrip(verb: string, host: string, path: string, body: string, extra: string, text: string)
    requires Token(verb) && NoSpace(path) && '\n' !in host && |body| <= MAX_U64
    requires Free(Kept(Lines(extra)), "content-length")
    requires text == MessageText(FirstRequestLine(verb, path), RequestHeaders(host, body, extra), body)
    ensures Plain(text) == Ok(Request(verb, Before(path, '?'), Behind(path, '?'), HeadSent(host, body, extra).headers, body))
    ensures Free(Kept(Lines(extra)), "host") ==>
              "host" in HeadSent(host, body, extra).headers && HeadSent(host, body, extra).headers["host"] == Trim(host)
    ensures Free(Kept(Lines(extra)), "connection") ==>
              "connection" in HeadSent(host, body, extra).headers && HeadSent(host, body, extra).headers["connection"] == "close"
  {
    var fixed, kept := FixedLines(host, body), Kept(Lines(extra));
    FixedLength(host, body);
    CollectAppend(NO_HEADERS, fixed, kept);
    CollectKeeps(Collect(NO_HEADERS, fixed), kept, "content-length");
    if Free(kept, "host") { CollectKeeps(Collect(NO_HEADERS, fixed), kept, "host"); }
    if Free(kept, "connection") { CollectKeeps(Collect(NO_HEADERS, fixed), kept, "connection"); }
    RequestReadBack(verb, host, path, body, extra, text);
  }

  /** Every extra header whose key comes only once is found under that key. */
  lemma {:induction false} ExtraHeaderFound(host: string, body: string, extra: string, i: nat)
    requires i < |Kept(Lines(extra))| && HasColon(Trim(Kept(Lines(extra))[i]))
    requires Free(Kept(Lines(extra))[i + 1..], KeyOf(Trim(Kept(Lines(extra))[i])))
    ensures KeyOf(Trim(Kept(Lines(extra))[i])) in HeadSent(host, body, extra).headers
    ensures HeadSent(host, body, extra).headers[KeyOf(Trim(Kept(Lines(extra))[i]))] == ValueOf(Trim(Kept(Lines(extra))[i]))
  {
    var fixed, kept := FixedLines(host, body), Kept(Lines(extra));
    CollectAppend(NO_HEADERS, fixed, kept);
    CollectFinds(Collect(NO_HEADERS, fixed), kept, i);
  }

  lemma {:induction false} KeptOneCollects(h: Head, line: string)
    ensures Collect(h, KeptOne(line)) == AddLine(h, Trim(line))
  {
    ChompTrim(line);
    TrimTwice(Chomp(line));
    if Trim(line) == "" {
      assert IndexOf("", ':') < 0;
    } else {
      assert [Trim(Chomp(line))][1..] == [];
    }
  }

  /** Leaving blank lines out and trimming the others changes nothing for who collects them. */
  lemma {:induction false} KeptCollects(h: Head, lines: seq<string>)
    ensures Collect(h, Kept(lines)) == Collect(h, lines)
    decreases lines
  {
    if lines != [] {
      CollectAppend(h, KeptOne(lines[0]), Kept(lines[1..]));
      KeptOneCollects(h, lines[0]);
      KeptCollects(AddLine(h, Trim(lines[0])), lines[1..]);
    }
  }

  /** So every line of the extra headers with a key that no later line has is found under that key. */
  lemma {:induction false} ExtraLineFound(host: string, body: string, extra: string, lines: seq<string>, i: nat)
    requires lines == Lines(extra) && i < |lines| && HasColon(Trim(lines[i])) && Free(lines[i + 1..], KeyOf(Trim(lines[i])))
    ensures KeyOf(Trim(lines[i])) in HeadSent(host, body, extra).headers
    ensures HeadSent(host, body, extra).headers[KeyOf(Trim(lines[i]))] == ValueOf(Trim(lines[i]))
  {
    var fixed := FixedLines(host, body);
    CollectAppend(NO_HEADERS, fixed, Kept(lines));
    KeptCollects(Collect(NO_HEADERS, fixed), lines);
    CollectFinds(Collect(NO_HEADERS, fixed), lines, i);
  }

  /** The path and the query make up the target again. */
  lemma {:induction false} TargetSplit(full: string)
    ensures full == if '?' in full then Before(full, '?') + "?" + Behind(full, '?') else Before(full, '?')
    ensures '?' !in full ==> Behind(full, '?') == ""
  {
    if '?' !in full {
      IndexNone(full, '?');
    } else {
      FoundIfIn(full, '?');
      TargetParts(full, IndexOf(full, '?'));
    }
  }

  lemma {:induction false} TargetParts(full: string, i: nat)
    requires i < |full| && i == IndexOf(full, '?')
    ensures full == Before(full, '?') + "?" + Behind(full, '?')
  {
    Rejoined(full, i);
    assert [full[i]] == "?";
  }

  lemma {:induction false} Rejoined(s: string, i: nat)
    requires i < |s|
    ensures s == s[..i] + [s[i]] + s[i + 1..]
  {
  }

  // Lines that end in a bare LF.

  lemma {:induction false} BareLineRead(a: string, rest: string)
    requires '\n' !in a
    ensures NextLine(a + "\n" + rest) == a + "\n" && AfterLine(a + "\n" + rest) == rest
    ensures Lines(a + "\n" + rest) == [a + "\n"] + Lines(rest)
    ensures Trim(a + "\n") == Trim(a) && Trim(Chomp(a + "\n")) == Trim(a)
  {
    var s := a + "\n" + rest;
    assert s[|a|] == '\n' && forall k :: 0 <= k < |a| ==> s[k] == a[k];
    FirstLineIs(s, |a|);
    assert s[..|a| + 1] == a + "\n" && s[|a| + 1..] == rest;
    TrimEndMore(a, '\n');
    TrimTrimmedEnd(a + "\n");
    TrimTrimmedEnd(a);
    BareChomp(a);
  }

  lemma {:induction false} NoReturnNoBlank(s: string)
    requires '\r' !in s
    ensures HeadEnd(s) == |s|
  {
    forall j | 0 <= j <= |s| ensures !OccursAt(s, BLANK, j) {
      if OccursAt(s, BLANK, j) {
        BlankHere(s, j);
        assert false;
      }
    }
    FindNot(s, BLANK, 0);
  }

  /** A request with a body whose lines end in LF alone. */
  function BareRequest(first: string, body: string): string
  {
    first + "\n" + (LengthField(body) + "\n" + ("" + "\n" + body))
  }

  lemma {:induction false} BarePlain(verb: string, path: string, body: string)
    requires Token(verb) && NoSpace(path) && |body| <= MAX_U64
    ensures Plain(BareRequest(FirstRequestLine(verb, path), body)).Ok?
    ensures Plain(BareRequest(FirstRequestLine(verb, path), body)).value.body == body
  {
    FirstLineRead(verb, path);
    LengthRead(body);
    var blank := "" + "\n" + body;
    BareLineRead(FirstRequestLine(verb, path), LengthField(body) + "\n" + blank);
    BareLineRead(LengthField(body), blank);
    BareLineRead("", body);
    assert Trim("") == "";
    var h := AddLine(NO_HEADERS, Trim(LengthField(body)));
    assert ReadHead(blank, h) == h && AfterHead(blank) == body;
    assert body[..|body|] == body;
  }

  lemma {:induction false} BareHead(length: string, body: string, h: Head)
    requires '\n' !in length && h == AddLine(NO_HEADERS, Trim(length)) && Trim(length) != ""
    ensures TakeHead(Lines(length + "\n" + ("" + "\n" + body)), NO_HEADERS) == h
  {
    var blank := "" + "\n" + body;
    BareLineRead(length, blank);
    BareLineRead("", body);
    assert Trim("") == "";
    assert ([length + "\n"] + Lines(blank))[1..] == Lines(blank);
    assert TakeHead(Lines(blank), h) == h;
  }

  lemma {:induction false} BareNoReturn(verb: string, path: string, body: string, s: string)
    requires Token(verb) && NoSpace(path) && '\r' !in body && s == BareRequest(FirstRequestLine(verb, path), body)
    ensures HeadEnd(s) == |s|
  {
    FirstLineRead(verb, path);
    LengthNoReturn(body);
    assert '\r' !in s;
    NoReturnNoBlank(s);
  }

  lemma {:induction false} BareTls(verb: string, path: string, body: string)
    requires Token(verb) && NoSpace(path) && 0 < |body| <= MAX_U64 && '\r' !in body
    ensures Tls(BareRequest(FirstRequestLine(verb, path), body)) == Err(ShortBody)
  {
    var first, length := FirstRequestLine(verb, path), LengthField(body);
    var s, later := BareRequest(first, body), length + "\n" + ("" + "\n" + body);
    hide FirstRequestLine, LengthField, HeadEnd, Trim, TakeHead, Lines, Chomp;
    FirstLineRead(verb, path);
    LengthRead(body);
    BareNoReturn(verb, path, body, s);
    assert s[..|s|] == s && s[|s|..] == "";
    BareLineRead(first, later);
    assert ([first + "\n"] + Lines(later))[1..] == Lines(later);
    BareHead(length, body, AddLine(NO_HEADERS, Trim(length)));
  }

  lemma {:induction false} LengthNoReturn(body: string)
    ensures '\r' !in LengthField(body)
  {
    PrintDigits(|body|, 10);
    assert '\r' !in "Content-Length" && '\r' !in ": ";
  }

  /** On such a request the plain parser finds the body and the TLS parser does not. */
  lemma {:induction false} BareLinesDiffer(verb: string, path: string, body: string)
    requires Token(verb) && NoSpace(path) && 0 < |body| <= MAX_U64 && '\r' !in body
    ensures Plain(BareRequest(FirstRequestLine(verb, path), body)) != Tls(BareRequest(FirstRequestLine(verb, path), body))
  {
    BarePlain(verb, path, body);
    BareTls(verb, path, body);
  }
}
