/** Responses with custom headers, which may hold line breaks of their own. */
module HttpCustom {

  import opened Options
  import opened Sequences
  import opened Text
  import opened Numbers
  import opened HttpRead
  import opened HttpText
  import opened HttpWrite
  import opened HttpRespond

  // A block of text whose last line is ended.

  predicate Ended(s: string) { s == "" || s[|s| - 1] == '\n' }

  lemma {:induction false} SentEnds(lines: seq<string>)
    ensures Ended(Sent(lines))
  {
    if lines != [] {
      SentEnds(lines[1..]);
      assert Sent(lines) == lines[0] + CRLF + Sent(lines[1..]);
    }
  }

  lemma {:induction false} SentJoin(a: seq<string>, b: seq<string>)
    ensures Sent(a + b) == Sent(a) + Sent(b)
    decreases a
  {
    if a == [] {
      assert a + b == b;
    } else {
      assert (a + b)[0] == a[0] && (a + b)[1..] == a[1..] + b;
      SentJoin(a[1..], b);
      Regroup(a[0] + CRLF, Sent(a[1..]), Sent(b));
    }
  }

  lemma {:induction false} FirstLineMore(s: string, rest: string)
    requires s != "" && Ended(s)
    ensures FirstLine(s + rest) == FirstLine(s)
  {
    if s[0] != '\n' {
      assert (s + rest)[1..] == s[1..] + rest;
      FirstLineMore(s[1..], rest);
    }
  }

  /** What follows an ended block does not change its first line. */
  lemma {:induction false} NextMore(s: string, rest: string)
    requires s != "" && Ended(s)
    ensures NextLine(s + rest) == NextLine(s) && AfterLine(s + rest) == AfterLine(s) + rest && Ended(AfterLine(s))
  {
    FirstLineMore(s, rest);
  }

  lemma {:induction false} LinesJoin(s: string, rest: string)
    requires Ended(s)
    ensures Lines(s + rest) == Lines(s) + Lines(rest)
    decreases |s|
  {
    if s == "" {
      assert s + rest == rest;
    } else {
      NextMore(s, rest);
      LinesJoin(AfterLine(s), rest);
      Regroup([NextLine(s)], Lines(AfterLine(s)), Lines(rest));
    }
  }

  predicate BlankIn(lines: seq<string>)
  {
    exists i :: 0 <= i < |lines| && Trim(lines[i]) == ""
  }

  lemma {:induction false} BlankParts(a: seq<string>, b: seq<string>)
    ensures BlankIn(a + b) <==> BlankIn(a) || BlankIn(b)
  {
    if BlankIn(a) {
      var i :| 0 <= i < |a| && Trim(a[i]) == "";
      assert (a + b)[i] == a[i];
    } else if BlankIn(b) {
      var i :| 0 <= i < |b| && Trim(b[i]) == "";
      assert (a + b)[|a| + i] == b[i];
    }
  }

  lemma {:induction false} BlankNext(s: string)
    requires s != ""
    ensures BlankIn(Lines(s)) <==> Trim(NextLine(s)) == "" || BlankIn(Lines(AfterLine(s)))
  {
    BlankParts([NextLine(s)], Lines(AfterLine(s)));
    assert Lines(s) == [NextLine(s)] + Lines(AfterLine(s));
    assert BlankIn([NextLine(s)]) <==> Trim([NextLine(s)][0]) == "";
  }

  lemma {:induction false} BlankLineRead(rest: string, h: Head)
    ensures ReadHead(CRLF + rest, h) == h && AfterHead(CRLF + rest) == rest
  {
    assert CRLF + rest == "" + CRLF + rest && "" + CRLF == CRLF;
    LineRead("", rest);
    TrimCrlf("");
  }

  /** What a client finds behind a block, a blank line and a body. */
  function Left(block: string, body: string): string
  {
    if BlankIn(Lines(block)) then AfterHead(block) + (CRLF + body) else body
  }

  /** The head is the block's, up to its first blank line if it has one. */
  lemma {:induction false} BlockRead(block: string, body: string, h: Head)
    requires Ended(block)
    ensures ReadHead(block + (CRLF + body), h) == ReadHead(block, h)
    ensures AfterHead(block + (CRLF + body)) == Left(block, body)
    decreases |block|
  {
    var rest := CRLF + body;
    if block == "" {
      assert block + rest == rest;
      BlankLineRead(body, h);
    } else {
      NextMore(block, rest);
      BlankNext(block);
      if Trim(NextLine(block)) != "" {
        BlockRead(AfterLine(block), body, AddLine(h, Trim(NextLine(block))));
      }
    }
  }

  /** Without a blank line all lines of the block are collected. */
  lemma {:induction false} BlockCollected(block: string, h: Head)
    requires !BlankIn(Lines(block))
    ensures ReadHead(block, h) == Collect(h, Lines(block))
    decreases |block|
  {
    if block != "" {
      BlankNext(block);
      assert Lines(block) == [NextLine(block)] + Lines(AfterLine(block));
      assert Lines(block)[1..] == Lines(AfterLine(block));
      BlockCollected(AfterLine(block), AddLine(h, Trim(NextLine(block))));
    }
  }

  // Exactly when a response survives its headers.

  /** The body a client takes from what follows the head is what was sent. */
  predicate Framed(h: Head, body: string)
  {
    if h.chunked then body == "" else h.length == None || h.length == Some(|body|)
  }

  /** Chunks hold less than the input they are read from. */
  lemma {:induction false} ChunksLose(s: string, body: string)
    ensures s == "" ==> Chunks(s, body) == Ok(body)
    ensures s != "" && Chunks(s, body).Ok? ==> |Chunks(s, body).value| < |body| + |s|
    decreases |s|
  {
    var n, rest := ChunkSize(NextLine(s)), AfterLine(s);
    if s != "" && 0 < n <= |rest| {
      ChunksLose(AfterLine(rest[n..]), body + rest[..n]);
    }
  }

  lemma {:induction false} BodyExact(h: Head, body: string)
    ensures BodyOf(h, body) == Ok(body) <==> Framed(h, body)
  {
    if h.chunked {
      ChunksLose(body, "");
    } else if h.length.Some? && h.length.value <= |body| {
      assert |body[..h.length.value]| == h.length.value;
      if h.length.value == |body| { assert body[..|body|] == body; }
    }
  }

  /** Behind more text than the body, an unchunked body needs its length and must come first. */
  lemma {:induction false} LongerExact(h: Head, rest: string, body: string)
    requires |rest| > |body| && !h.chunked
    ensures BodyOf(h, rest) == Ok(body) <==> h.length == Some(|body|) && body <= rest
  {
    if h.length.Some? && h.length.value <= |rest| {
      assert |rest[..h.length.value]| == h.length.value;
      if body <= rest { assert rest[..|body|] == body; }
    }
  }

  lemma {:induction false} BlockAnswered(code: nat, lines: seq<string>, body: string, block: string, h: Head)
    requires code <= MAX_U16 && block == Sent(lines) && h == ReadHead(block, NO_HEADERS)
    ensures ReadResponse(MessageText(FirstResponseLine(code), lines, body)) ==
            match BodyOf(h, Left(block, body)) case Err(e) => Err(e) case Ok(b) => Ok(Response(code, StatusText(code), h.headers, b))
  {
    var first := FirstResponseLine(code);
    FirstResponseRead(code);
    LineRead(first, HeadText(lines, body));
    TrimCrlf(first);
    SentIsHead(lines, body);
    Regroup(block, CRLF, body);
    SentEnds(lines);
    BlockRead(block, body, NO_HEADERS);
  }

  /**
   * For any custom headers: if the header block has no blank line, the response is
   * recovered exactly when the headers neither change the announced length nor, unless
   * the body is empty, announce chunks. If it has one, the rest of the block stands before
   * the body, which must then come out of the chunks read there, or be the beginning of
   * that text and have the announced length.
   */
  lemma {:induction false} ResponseExact(code: nat, body: string, fields: seq<string>, block: string, h: Head, rest: string)
    requires code <= MAX_U16
    requires block == Sent(ResponseHeaders(body, fields)) && h == ReadHead(block, NO_HEADERS)
    requires rest == AfterHead(block) + (CRLF + body)
    ensures ReadResponse(MessageText(FirstResponseLine(code), ResponseHeaders(body, fields), body))
              == Ok(Response(code, StatusText(code), h.headers, body))
       <==> if !BlankIn(Lines(block)) then Framed(h, body)
            else if h.chunked then Chunks(rest, "") == Ok(body)
            else h.length == Some(|body|) && body <= rest
  {
    BlockAnswered(code, ResponseHeaders(body, fields), body, block, h);
    if !BlankIn(Lines(block)) {
      BodyExact(h, body);
    } else if !h.chunked {
      LongerExact(h, rest, body);
    }
  }

  // Headers that leave the framing alone.

  /** No line of a block is blank or says how the body is framed. */
  predicate Quiet(lines: seq<string>)
  {
    !BlankIn(lines) && Free(lines, "content-length") && Free(lines, "transfer-encoding")
  }

  lemma {:induction false} FreeJoin(a: seq<string>, b: seq<string>, key: string)
    requires Free(a, key) && Free(b, key)
    ensures Free(a + b, key)
  {
  }

  lemma {:induction false} QuietJoin(a: seq<string>, b: seq<string>)
    requires Quiet(a) && Quiet(b)
    ensures Quiet(a + b)
  {
    BlankParts(a, b);
    FreeJoin(a, b, "content-length");
    FreeJoin(a, b, "transfer-encoding");
  }

  lemma {:induction false} OneSent(line: string)
    requires '\n' !in line
    ensures Lines(Sent([line])) == [line + CRLF] && Trim(line + CRLF) == Trim(line)
  {
    assert Sent([line]) == line + CRLF + "";
    LineRead(line, "");
    TrimCrlf(line);
    assert Lines("") == [];
  }

  lemma {:induction false} ConnectionQuiet()
    ensures Quiet(Lines(Sent(["Connection: close"])))
  {
    ConnectionRead();
    OneSent("Connection: close");
  }

  /** The lines of a response's header block. */
  lemma {:induction false} BlockLines(body: string, fields: seq<string>, later: seq<string>)
    requires later == fields + ["Connection: close"]
    ensures Lines(Sent(ResponseHeaders(body, fields))) == [LengthField(body) + CRLF] + Lines(Sent(later))
    ensures Lines(Sent(later)) == Lines(Sent(fields)) + Lines(Sent(["Connection: close"]))
  {
    var length := LengthField(body);
    LengthOneLine(body);
    Regroup([length], fields, ["Connection: close"]);
    SentJoin([length], later);
    SentEnds([length]);
    LinesJoin(Sent([length]), Sent(later));
    OneSent(length);
    SentJoin(fields, ["Connection: close"]);
    SentEnds(fields);
    LinesJoin(Sent(fields), Sent(["Connection: close"]));
  }

  lemma {:induction false} LengthOneLine(body: string)
    ensures '\n' !in LengthField(body)
  {
    PrintDigits(|body|, 10);
    DigitsHaveNoSpace(Print(|body|, 10));
    FieldOneLine("Content-Length", Print(|body|, 10));
  }

  lemma {:induction false} QuietFraming(body: string, fields: seq<string>, block: string, h: Head)
    requires |body| <= MAX_U64 && Quiet(Lines(Sent(fields)))
    requires block == Sent(ResponseHeaders(body, fields)) && h == ReadHead(block, NO_HEADERS)
    ensures !BlankIn(Lines(block)) && h.length == Some(|body|) && !h.chunked
  {
    var later := fields + ["Connection: close"];
    var lines, first := Lines(Sent(later)), LengthField(body) + CRLF;
    BlockLines(body, fields, later);
    ConnectionQuiet();
    QuietJoin(Lines(Sent(fields)), Lines(Sent(["Connection: close"])));
    LengthRead(body);
    TrimCrlf(LengthField(body));
    BlankParts([first], lines);
    BlockCollected(block, NO_HEADERS);
    assert ([first] + lines)[1..] == lines;
    CollectKeeps(AddLine(NO_HEADERS, Trim(first)), lines, "content-length");
    CollectKeeps(AddLine(NO_HEADERS, Trim(first)), lines, "transfer-encoding");
  }

  /** The client recovers what the writer with custom headers sends, line breaks in them or not. */
  lemma {:induction false} CustomRead(code: nat, custom: seq<(string, string)>, body: string, text: string)
    requires code <= MAX_U16 && |body| <= MAX_U64 && Quiet(Lines(Sent(CustomFields(custom))))
    requires text == MessageText(FirstResponseLine(code), ResponseHeaders(body, CustomFields(custom)), body)
    ensures ReadResponse(text).Ok?
    ensures ReadResponse(text).value.status == code && ReadResponse(text).value.text == StatusText(code)
    ensures ReadResponse(text).value.body == body
  {
    var fields := CustomFields(custom);
    var block := Sent(ResponseHeaders(body, fields));
    var h := ReadHead(block, NO_HEADERS);
    QuietFraming(body, fields, block, h);
    ResponseExact(code, body, fields, block, h, AfterHead(block) + (CRLF + body));
  }

  /** Headers of one line each are quiet when no name gives one of the two keys. */
  predicate CustomUnframed(custom: seq<(string, string)>)
  {
    forall i :: 0 <= i < |custom| ==>
      && '\n' !in custom[i].0 && '\n' !in custom[i].1
      && FieldKey(custom[i].0) != "content-length" && FieldKey(custom[i].0) != "transfer-encoding"
  }

  lemma {:induction false} FieldQuiet(name: string, value: string)
    requires '\n' !in name && '\n' !in value
    requires FieldKey(name) != "content-length" && FieldKey(name) != "transfer-encoding"
    ensures Quiet(Lines(Sent([Field(name, value)])))
  {
    FieldKeyRead(name, value);
    FieldOneLine(name, value);
    OneSent(Field(name, value));
  }

  lemma {:induction false} CustomIsQuiet(custom: seq<(string, string)>)
    requires CustomUnframed(custom)
    ensures Quiet(Lines(Sent(CustomFields(custom))))
  {
    if custom != [] {
      var n := |custom| - 1;
      var before, last := CustomFields(custom[..n]), [Field(custom[n].0, custom[n].1)];
      CustomIsQuiet(custom[..n]);
      FieldQuiet(custom[n].0, custom[n].1);
      SentJoin(before, last);
      SentEnds(before);
      LinesJoin(Sent(before), Sent(last));
      QuietJoin(Lines(Sent(before)), Lines(Sent(last)));
    }
  }

  lemma {:induction false} CustomFieldsAt(custom: seq<(string, string)>, i: nat)
    requires i < |custom|
    ensures |CustomFields(custom)| == |custom| && CustomFields(custom)[i] == Field(custom[i].0, custom[i].1)
    decreases custom
  {
    var n := |custom| - 1;
    if n > 0 { CustomFieldsAt(custom[..n], if i < n then i else 0); } else { assert CustomFields(custom[..n]) == []; }
  }

  /** A custom header is received under its key, in lower case, when no later header has that key. */
  lemma {:induction false} CustomFound(body: string, custom: seq<(string, string)>, i: nat, lines: seq<string>, key: string)
    requires i < |custom| && FieldName(custom[i].0) && key == Lower(Trim(custom[i].0))
    requires lines == ResponseHeaders(body, CustomFields(custom)) && |CustomFields(custom)| == |custom|
    requires Free(lines[i + 2..], key)
    ensures HasHeader(Collect(NO_HEADERS, lines).headers, key, Trim(custom[i].1))
  {
    var name, value := custom[i].0, custom[i].1;
    CustomFieldsAt(custom, i);
    assert lines[i + 1] == Field(name, value);
    FieldRead(name, value);
    hide Trim, Lower, KeyOf, ValueOf, HasColon, Collect, Field;
    CollectFinds(NO_HEADERS, lines, i + 1);
  }

  // A header that breaks the response.

  const BREAKS := "\n\n"

  const X := "X: "
  const CLOSE := "Connection: close"

  lemma {:induction false} InjectedLines(later: string, h: Head)
    ensures BlankIn(Lines(X + "\n" + ("" + "\n" + later)))
    ensures ReadHead(X + "\n" + ("" + "\n" + later), h) == AddLine(h, Trim(X))
    ensures AfterHead(X + "\n" + ("" + "\n" + later)) == later
  {
    var rest := "" + "\n" + later;
    BareLineRead(X, rest);
    BareLineRead("", later);
    NotBlank(X, 0);
    BlankNext(X + "\n" + rest);
    BlankNext(rest);
  }

  lemma {:induction false} InjectedKey()
    ensures KeyOf(Trim(X)) == "x" && '\n' !in X
  {
    FieldKeyRead("X", "");
    assert Field("X", "") == X;
    IndexNone("X", ':');
    TrimNothing("X");
    assert Lower("X") == "x";
  }

  lemma {:induction false} InjectedSent(body: string)
    ensures Sent(ResponseHeaders(body, [Field("X", BREAKS)]))
            == LengthField(body) + CRLF + (X + "\n" + ("" + "\n" + (CRLF + Sent([CLOSE]))))
  {
    var length, field := LengthField(body), Field("X", BREAKS);
    assert ResponseHeaders(body, [field]) == [length] + ([field] + [CLOSE]);
    SentJoin([length], [field] + [CLOSE]);
    SentJoin([field], [CLOSE]);
    assert Sent([length]) == length + CRLF && Sent([field]) == field + CRLF;
    assert field + CRLF + Sent([CLOSE]) == X + "\n" + ("" + "\n" + (CRLF + Sent([CLOSE])));
  }

  lemma {:induction false} InjectedBlock(body: string, block: string, h: Head)
    requires |body| <= MAX_U64 && block == Sent(ResponseHeaders(body, [Field("X", BREAKS)])) && h == ReadHead(block, NO_HEADERS)
    ensures BlankIn(Lines(block)) && AfterHead(block) == CRLF + Sent([CLOSE])
    ensures h.length == Some(|body|) && !h.chunked
  {
    var length, later := LengthField(body), X + "\n" + ("" + "\n" + (CRLF + Sent([CLOSE])));
    InjectedSent(body);
    LengthOneLine(body);
    LineRead(length, later);
    TrimCrlf(length);
    LengthRead(body);
    BlankNext(block);
    InjectedKey();
    InjectedLines(CRLF + Sent([CLOSE]), AddLine(NO_HEADERS, Trim(length)));
  }

  /**
   * The value of two line breaks ends the head: the client takes the rest of the block
   * for the body, and gets the body only if that is how it begins.
   */
  lemma {:induction false} InjectedBlank(code: nat, body: string, text: string, rest: string)
    requires code <= MAX_U16 && |body| <= MAX_U64
    requires text == MessageText(FirstResponseLine(code), ResponseHeaders(body, [Field("X", BREAKS)]), body)
    requires rest == CRLF + Sent([CLOSE]) + (CRLF + body)
    ensures ReadResponse(text).Ok? && ReadResponse(text).value.body == rest[..|body|]
    ensures body == "b" ==> ReadResponse(text).value.body == "\r"
  {
    var fields := [Field("X", BREAKS)];
    var block := Sent(ResponseHeaders(body, fields));
    BlockAnswered(code, ResponseHeaders(body, fields), body, block, ReadHead(block, NO_HEADERS));
    InjectedBlock(body, block, ReadHead(block, NO_HEADERS));
    assert Left(block, body) == rest;
    assert rest[0] == '\r';
  }
}
