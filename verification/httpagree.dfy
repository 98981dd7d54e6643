/** The plain and the TLS request parser agree on well-formed requests. */
module HttpAgree {

  import opened Options
  import opened Text
  import opened Numbers
  import opened HttpRead
  import opened HttpText

  /** What both parsers make of it. */
  function Parsed(first: string, lines: seq<string>, rest: string): Result<Request>
  {
    match RequestLine(Trim(first))
    case Err(e) => Err(e)
    case Ok(t) => WithBody(t, Collect(NO_HEADERS, lines), rest)
  }

  lemma {:induction false} PlainReads(first: string, lines: seq<string>, rest: string)
    requires '\n' !in first && HeaderLines(lines)
    ensures Plain(MessageText(first, lines, rest)) == Parsed(first, lines, rest)
  {
    LineRead(first, HeadText(lines, rest));
    TrimCrlf(first);
    HeadReadBack(lines, rest, NO_HEADERS);
  }

  // The TLS parser looks for the blank line first.

  predicate OneLine(line: string) { '\r' !in line && '\n' !in line }

  predicate OneLiners(lines: seq<string>)
  {
    forall i :: 0 <= i < |lines| ==> OneLine(lines[i]) && Trim(lines[i]) != ""
  }

  lemma {:induction false} OccursBehind(a: string, b: string, t: string, i: int)
    requires 0 <= i
    ensures OccursAt(a + b, t, |a| + i) <==> OccursAt(b, t, i)
  {
    var s := a + b;
    if OccursAt(b, t, i) {
      forall k | 0 <= k < |t| ensures s[|a| + i + k] == t[k] { assert b[i + k] == t[k]; }
    }
    if OccursAt(s, t, |a| + i) {
      forall k | 0 <= k < |t| ensures b[i + k] == t[k] { assert s[|a| + i + k] == t[k]; }
    }
  }

  /** The first blank line is behind a when none starts in a. */
  lemma {:induction false} FindBehind(a: string, b: string, i: int)
    requires i == Find(b, BLANK, 0) && i >= 0
    requires forall j :: 0 <= j < |a| ==> !OccursAt(a + b, BLANK, j)
    ensures Find(a + b, BLANK, 0) == |a| + i
  {
    OccursBehind(a, b, BLANK, i);
    forall j | 0 <= j < |a| + i ensures !OccursAt(a + b, BLANK, j) {
      if j >= |a| {
        FindFirst(b, BLANK, 0, j - |a|);
        OccursBehind(a, b, BLANK, j - |a|);
      }
    }
    FindIs(a + b, BLANK, 0, |a| + i);
  }

  /** None starts where there is no CR. */
  lemma {:induction false} FindSkips(a: string, b: string, i: int)
    requires '\r' !in a && i == Find(b, BLANK, 0) && i >= 0
    ensures Find(a + b, BLANK, 0) == |a| + i
  {
    forall j | 0 <= j < |a| ensures !OccursAt(a + b, BLANK, j) {
      if OccursAt(a + b, BLANK, j) {
        BlankHere(a + b, j);
        assert false;
      }
    }
    FindBehind(a, b, i);
  }

  lemma {:induction false} FindStepsOver(l: string, b: string, i: int)
    requires l != "" && '\r' !in l && i == Find(CRLF + b, BLANK, 0) && i >= 0
    ensures Find(CRLF + (l + CRLF + b), BLANK, 0) == 2 + |l| + i
  {
    var tail := l + (CRLF + b);
    FindSkips(l, CRLF + b, i);
    var s := CRLF + tail;
    assert s == ("\r\n" + l) + (CRLF + b);
    forall j | 0 <= j < 2 ensures !OccursAt(s, BLANK, j) {
      if OccursAt(s, BLANK, j) {
        BlankHere(s, j);
        assert false;
      }
    }
    FindBehind(CRLF, tail, |l| + i);
    assert l + CRLF + b == tail;
  }

  lemma {:induction false} HeadTextSplit(lines: seq<string>, rest: string)
    ensures HeadText(lines, rest) == HeadText(lines, "") + rest
    decreases lines
  {
    if lines == [] {
      assert CRLF + "" == CRLF;
    } else {
      HeadTextSplit(lines[1..], rest);
    }
  }

  /** The first blank line is the one that ends the head. */
  lemma {:induction false} BlankAtEnd(lines: seq<string>, rest: string)
    requires OneLiners(lines)
    ensures Find(CRLF + HeadText(lines, rest), BLANK, 0) == |HeadText(lines, "")| - 2
    decreases lines
  {
    if lines == [] {
      var s := CRLF + (CRLF + rest);
      assert s == BLANK + rest;
      FindIs(s, BLANK, 0, 0);
    } else {
      var later := HeadText(lines[1..], rest);
      BlankAtEnd(lines[1..], rest);
      HeadTextSplit(lines[1..], "");
      HeadNotEmpty(lines[1..]);
      assert Trim("") == "" && OneLine(lines[0]) && Trim(lines[0]) != "";
      FindStepsOver(lines[0], later, |HeadText(lines[1..], "")| - 2);
    }
  }

  lemma {:induction false} HeadNotEmpty(lines: seq<string>)
    ensures |HeadText(lines, "")| >= 2
  {
  }

  lemma {:induction false} HeadEndIs(first: string, lines: seq<string>, rest: string)
    requires OneLine(first) && OneLiners(lines)
    ensures HeadEnd(MessageText(first, lines, rest)) == |MessageText(first, lines, "")|
    ensures MessageText(first, lines, rest) == MessageText(first, lines, "") + rest
  {
    var head := HeadText(lines, rest);
    BlankAtEnd(lines, rest);
    HeadNotEmpty(lines);
    FindSkips(first, CRLF + head, |HeadText(lines, "")| - 2);
    assert MessageText(first, lines, rest) == first + (CRLF + head);
    HeadTextSplit(lines, rest);
  }

  // Its lines are the lines sent.

  lemma {:induction false} LinesOf(a: string, rest: string)
    requires '\n' !in a
    ensures Lines(a + CRLF + rest) == [a + CRLF] + Lines(rest)
  {
    LineRead(a, rest);
  }

  lemma {:induction false} ChompCrlf(a: string)
    ensures Chomp(a + CRLF) == a
  {
    var s := a + CRLF;
    assert s[|s| - 1] == '\n' && s[|s| - 2] == '\r' && s[..|s| - 2] == a;
  }

  lemma {:induction false} HeadTaken(lines: seq<string>, h: Head)
    requires OneLiners(lines)
    ensures TakeHead(Lines(HeadText(lines, "")), h) == Collect(h, lines)
    decreases lines
  {
    if lines == [] {
      assert HeadText(lines, "") == "" + CRLF + "";
      LinesOf("", "");
      ChompCrlf("");
      assert Trim("") == "";
    } else {
      var later := HeadText(lines[1..], "");
      LinesOf(lines[0], later);
      ChompCrlf(lines[0]);
      assert ([lines[0] + CRLF] + Lines(later))[1..] == Lines(later);
      HeadTaken(lines[1..], AddLine(h, Trim(lines[0])));
    }
  }

  lemma {:induction false} TlsReads(first: string, lines: seq<string>, rest: string)
    requires OneLine(first) && OneLiners(lines)
    ensures Tls(MessageText(first, lines, rest)) == Parsed(first, lines, rest)
  {
    var s, head := MessageText(first, lines, rest), MessageText(first, lines, "");
    HeadEndIs(first, lines, rest);
    assert s[..|head|] == head && s[|head|..] == rest;
    LinesOf(first, HeadText(lines, ""));
    ChompCrlf(first);
    var all := [first + CRLF] + Lines(HeadText(lines, ""));
    assert all[1..] == Lines(HeadText(lines, ""));
    HeadTaken(lines, NO_HEADERS);
  }

  /**
   * On every request whose head lines end in CRLF, hold no other CR or LF and are
   * not blank, both parsers return the same result, errors included.
   */
  lemma {:induction false} ParsersAgree(first: string, lines: seq<string>, rest: string)
    requires OneLine(first) && OneLiners(lines)
    ensures Tls(MessageText(first, lines, rest)) == Plain(MessageText(first, lines, rest))
  {
    assert HeaderLines(lines) by {
      forall i | 0 <= i < |lines| ensures HeaderLine(lines[i]) {
        assert OneLine(lines[i]);
      }
    }
    PlainReads(first, lines, rest);
    TlsReads(first, lines, rest);
  }

  /** A first line of one word is refused. */
  lemma {:induction false} OneWordRefused(s: string)
    requires ' ' !in Trim(NextLine(s))
    ensures Plain(s) == Err(BadRequestLine)
  {
    IndexNone(Trim(NextLine(s)), ' ');
  }

  /** A status line without a number is refused. */
  lemma {:induction false} NoStatusRefused(s: string)
    ensures ' ' !in Trim(NextLine(s)) ==> ReadResponse(s) == Err(BadStatusLine)
    ensures ' ' in Trim(NextLine(s)) && Parse(Before(Behind(Trim(NextLine(s)), ' '), ' '), 10, MAX_U16) == None ==>
              ReadResponse(s) == Err(BadStatus)
  {
    if ' ' !in Trim(NextLine(s)) { IndexNone(Trim(NextLine(s)), ' '); } else { FoundIfIn(Trim(NextLine(s)), ' '); }
  }

  // Exactly when they agree.

  lemma {:induction false} BareChomp(a: string)
    ensures Trim(Chomp(a + "\n")) == Trim(a)
  {
    var s := a + "\n";
    if a != "" && a[|a| - 1] == '\r' {
      var front := a[..|a| - 1];
      assert a == front + ['\r'] && s[..|s| - 2] == front;
      TrimEndMore(front, '\r');
      TrimTrimmedEnd(a);
      TrimTrimmedEnd(front);
    } else {
      assert s[..|s| - 1] == a;
    }
  }

  /** Trimming a line removes its line break anyway. */
  lemma {:induction false} ChompTrim(line: string)
    ensures Trim(Chomp(line)) == Trim(line)
  {
    if line != "" && line[|line| - 1] == '\n' {
      var a := line[..|line| - 1];
      assert line == a + "\n" && line == a + ['\n'];
      BareChomp(a);
      TrimEndMore(a, '\n');
      TrimTrimmedEnd(a);
      TrimTrimmedEnd(line);
    }
  }

  lemma {:induction false} CutTwice(s: string, n: nat, m: nat)
    requires n <= |s| && m <= |s[n..]|
    ensures s[n..][m..] == s[n + m..]
  {
  }

  /** How much of the input a line reader takes for the head. */
  function HeadLength(s: string): (n: nat)
    ensures n <= |s|
    decreases |s|
  {
    if s == "" then 0
    else if Trim(NextLine(s)) == "" then FirstLine(s)
    else FirstLine(s) + HeadLength(AfterLine(s))
  }

  lemma {:induction false} AfterHeadIs(s: string)
    ensures AfterHead(s) == s[HeadLength(s)..]
    decreases |s|
  {
    hide Trim, FirstLine;
    if s != "" && Trim(NextLine(s)) != "" {
      AfterHeadIs(AfterLine(s));
      CutTwice(s, FirstLine(s), HeadLength(AfterLine(s)));
    }
  }

  lemma {:induction false} FirstLineCut(s: string, c: nat)
    requires s != "" && FirstLine(s) <= c <= |s|
    ensures FirstLine(s[..c]) == FirstLine(s)
  {
    if !(s[0] == '\n' || |s| == 1) {
      assert s[..c][1..] == s[1..][..c - 1];
      FirstLineCut(s[1..], c - 1);
    }
  }

  /** The lines of a text cut behind its first line. */
  lemma {:induction false} LinesCut(s: string, c: nat)
    requires s != "" && FirstLine(s) <= c <= |s|
    ensures Lines(s[..c]) == [NextLine(s)] + Lines(AfterLine(s)[..c - FirstLine(s)])
  {
    var n := FirstLine(s);
    FirstLineCut(s, c);
    assert s[..c][..n] == s[..n] && s[..c][n..] == s[n..][..c - n];
  }

  /** Cut anywhere behind the head, the lines of the input give the same head. */
  lemma {:induction false} SameHead(s: string, c: nat, h: Head)
    requires HeadLength(s) <= c <= |s|
    ensures TakeHead(Lines(s[..c]), h) == ReadHead(s, h)
    decreases |s|
  {
    hide Trim, Chomp;
    if s == "" {
      assert s[..c] == "";
    } else {
      LinesCut(s, c);
      ChompTrim(NextLine(s));
      var line, later := Trim(NextLine(s)), Lines(AfterLine(s)[..c - FirstLine(s)]);
      assert ([NextLine(s)] + later)[1..] == later;
      if line != "" {
        SameHead(AfterLine(s), c - FirstLine(s), AddLine(h, line));
      }
    }
  }

  // The blank line the TLS parser looks for is one the line reader stops at.

  /** A line break directly before position i: a line starts there. */
  lemma {:induction false} StopsAtBlank(s: string, i: nat)
    requires i + 2 <= |s| && s[i] == '\r' && s[i + 1] == '\n' && (i == 0 || s[i - 1] == '\n')
    ensures HeadLength(s) <= i + 2
    decreases |s|
  {
    if i == 0 {
      BlankFirst(s);
    } else {
      FirstLineWithin(s, i - 1);
      var n := FirstLine(s);
      if Trim(NextLine(s)) != "" {
        assert AfterLine(s)[i - n] == s[i] && AfterLine(s)[i - n + 1] == s[i + 1];
        StopsAtBlank(AfterLine(s), i - n);
      }
    }
  }

  lemma {:induction false} BlankFirst(s: string)
    requires |s| >= 2 && s[0] == '\r' && s[1] == '\n'
    ensures FirstLine(s) == 2 && Trim(NextLine(s)) == ""
  {
    FirstLineIs(s, 1);
    assert NextLine(s) == "" + CRLF;
    TrimCrlf("");
  }

  lemma {:induction false} FirstLineWithin(s: string, j: nat)
    requires j < |s| && s[j] == '\n'
    ensures FirstLine(s) <= j + 1
  {
    if j > 0 && s[0] != '\n' {
      FirstLineWithin(s[1..], j - 1);
    }
  }

  /** The line reader never reads on behind the head the TLS parser takes. */
  lemma {:induction false} TlsTakesMore(s: string)
    requires s != ""
    ensures FirstLine(s) + HeadLength(AfterLine(s)) <= HeadEnd(s)
  {
    var i := Find(s, BLANK, 0);
    if i >= 0 {
      var n := FirstLine(s);
      BlankHere(s, i);
      FirstLineWithin(s, i + 1);
      assert AfterLine(s)[i + 2 - n] == s[i + 2] && AfterLine(s)[i + 3 - n] == s[i + 3];
      if n < i + 2 { assert AfterLine(s)[i + 1 - n] == s[i + 1]; }
      StopsAtBlank(AfterLine(s), i + 2 - n);
    }
  }

  /** What both parsers make of any input, given where the body starts. */
  function ParsedWith(s: string, rest: string): Result<Request>
  {
    match RequestLine(Trim(NextLine(s)))
    case Err(e) => Err(e)
    case Ok(t) => WithBody(t, ReadHead(AfterLine(s), NO_HEADERS), rest)
  }

  lemma {:induction false} LinesParts(lines: seq<string>, line: string, later: seq<string>)
    requires lines == [line] + later
    ensures lines != [] && lines[0] == line && lines[1..] == later
  {
  }

  /** The lines of the TLS parser's head: the same first line, the same headers. */
  lemma {:induction false} SameLines(s: string, e: nat, lines: seq<string>)
    requires s != "" && e <= |s| && FirstLine(s) + HeadLength(AfterLine(s)) <= e && lines == Lines(s[..e])
    ensures lines != [] && Trim(Chomp(lines[0])) == Trim(NextLine(s))
    ensures TakeHead(lines[1..], NO_HEADERS) == ReadHead(AfterLine(s), NO_HEADERS)
  {
    hide ReadHead, TakeHead, HeadLength, Lines, FirstLine, Trim, Chomp;
    var rest, c := AfterLine(s), e - FirstLine(s);
    LinesCut(s, e);
    LinesParts(lines, NextLine(s), Lines(rest[..c]));
    ChompTrim(NextLine(s));
    SameHead(rest, c, NO_HEADERS);
  }

  lemma {:induction false} TlsExact(s: string)
    requires s != ""
    ensures Tls(s) == ParsedWith(s, s[HeadEnd(s)..])
  {
    TlsTakesMore(s);
    SameLines(s, HeadEnd(s), Lines(s[..HeadEnd(s)]));
  }

  function LengthOf(h: Head): nat { if h.length.Some? then h.length.value else 0 }

  lemma {:induction false} BodiesAgree(t: Target, h: Head, a: string, b: string)
    requires |b| <= |a|
    ensures WithBody(t, h, a) == WithBody(t, h, b) <==>
            LengthOf(h) == 0 || LengthOf(h) > |a| || (LengthOf(h) <= |b| && a[..LengthOf(h)] == b[..LengthOf(h)])
  {
  }

  /** The parsers read the same body, if one is announced and is there. */
  predicate SameBodyRead(n: nat, plain: string, tls: string)
  {
    n == 0 || n > |plain| || (n <= |tls| && plain[..n] == tls[..n])
  }

  /**
   * For every input: the two parsers collect the same request line and headers, and
   * return the same result exactly when the input is not empty and, unless its first
   * line is malformed, the body stands in both places where they look for it.
   */
  lemma {:induction false} AgreeExactly(s: string)
    ensures Plain(s) == Tls(s) <==>
            s != "" && (RequestLine(Trim(NextLine(s))).Err?
              || SameBodyRead(LengthOf(ReadHead(AfterLine(s), NO_HEADERS)), AfterHead(AfterLine(s)), s[HeadEnd(s)..]))
  {
    if s == "" {
      EmptyInput();
    } else {
      TlsExact(s);
      TlsTakesMore(s);
      AfterHeadIs(AfterLine(s));
      hide ReadHead, TakeHead, HeadLength, Lines, FirstLine, Trim, Chomp, HeadEnd;
      var line := RequestLine(Trim(NextLine(s)));
      if line.Ok? {
        BodiesAgree(line.value, ReadHead(AfterLine(s), NO_HEADERS), AfterHead(AfterLine(s)), s[HeadEnd(s)..]);
      }
    }
  }

  lemma {:induction false} EmptyInput()
    ensures Plain("") == Err(BadRequestLine) && Tls("") == Err(EmptyRequest)
  {
    assert Trim("") == "" && IndexOf("", ' ') == -1;
    assert ""[..HeadEnd("")] == "";
  }

  /** A body without a blank line in front of it that ends in CRLF is found by the plain parser only. */
  lemma {:induction false} NoBlankLineDiffers(s: string)
    requires Plain(s).Ok? && Plain(s).value.body != "" && Find(s, BLANK, 0) < 0
    ensures Tls(s) == Err(ShortBody)
  {
    if s == "" {
      EmptyInput();
      assert false;
    }
    TlsExact(s);
    assert s[HeadEnd(s)..] == "";
  }
}
