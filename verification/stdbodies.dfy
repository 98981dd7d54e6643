/** What blanking the bodies of std modules does to the code around them. */
module StdBodies {

  import opened Sequences
  import opened Text
  import opened Masking
  import opened Linked

  // The lexer line by line.

  /** The lexer's state behind the text. */
  function StateFrom(s: string, i: nat, state: State): State
    requires i <= |s|
    decreases |s| - i
  {
    if i == |s| then state else StateFrom(s, i + Taken(s, i, state), NextState(s, i, state))
  }

  /** The lexer's state at the start of line k. */
  function StateAt(lines: seq<string>, k: nat): State
    requires k <= |lines|
  {
    if k == 0 then Code else StateFrom(lines[k - 1], 0, StateAt(lines, k - 1))
  }

  /** What the lexer makes of line k. */
  function CodeOf(lines: seq<string>, k: nat): string
    requires k < |lines|
  {
    MaskFrom(lines[k], 0, StateAt(lines, k))
  }

  function CodeLines(lines: seq<string>): seq<string>
  {
    seq(|lines|, k requires 0 <= k < |lines| => CodeOf(lines, k))
  }

  /** A turn looks at one character and, unless it is a line break, at the next. */
  lemma {:induction false} SameTurn(s: string, i: nat, t: string, j: nat, state: State)
    requires i < |s| && j < |t| && s[i] == t[j]
    requires (i + 1 < |s|) && (j + 1 < |t|) ==> s[i + 1] == t[j + 1]
    requires (i + 1 < |s|) != (j + 1 < |t|) ==> s[i] == '\n'
    ensures Taken(s, i, state) == Taken(t, j, state) && NextState(s, i, state) == NextState(t, j, state)
    ensures Output(s, i, state) == Output(t, j, state)
  {
  }

  /** What follows a turn that is the same is the same. */
  lemma {:induction false} SameRest(s: string, i: nat, t: string, j: nat, state: State, n: nat, next: State, more: string)
    requires i < |s| && j < |t| && i + n <= |s| && j + n <= |t|
    requires Taken(s, i, state) == Taken(t, j, state) == n && NextState(s, i, state) == NextState(t, j, state) == next
    requires Output(s, i, state) == Output(t, j, state)
    requires MaskFrom(s, i + n, next) == MaskFrom(t, j + n, next) + more
    ensures MaskFrom(s, i, state) == MaskFrom(t, j, state) + more
  {
    var out := Output(t, j, state);
    hide Output, Taken, NextState;
    assert MaskFrom(s, i, state) == out + MaskFrom(s, i + n, next);
    assert MaskFrom(t, j, state) == out + MaskFrom(t, j + n, next);
    Regroup(out, MaskFrom(t, j + n, next), more);
  }

  lemma {:induction false} TakenFits(s: string, i: nat, state: State)
    requires i < |s|
    ensures 0 < Taken(s, i, state) <= |s| - i
  {
  }

  lemma {:induction false} MaskedAll(s: string, state: State)
    ensures MaskFrom(s, |s|, state) == ""
  {
  }

  lemma {:induction false} LaterTurn(a: string, b: string, s: string, i: nat, state: State)
    requires i < |b| && s == a + b
    ensures Taken(s, |a| + i, state) == Taken(b, i, state) && NextState(s, |a| + i, state) == NextState(b, i, state)
    ensures Output(s, |a| + i, state) == Output(b, i, state)
  {
    hide Taken, NextState, Output;
    assert s[|a| + i] == b[i] && (i + 1 < |b| ==> s[|a| + i + 1] == b[i + 1]);
    SameTurn(s, |a| + i, b, i, state);
  }

  lemma {:induction false} MaskShift(a: string, b: string, s: string, i: nat, state: State)
    requires i <= |b| && s == a + b
    ensures MaskFrom(s, |a| + i, state) == MaskFrom(b, i, state) + ""
    decreases |b| - i
  {
    hide MaskFrom, Taken, NextState, Output;
    if i == |b| {
      MaskedAll(s, state);
      MaskedAll(b, state);
    } else {
      var n, next := Taken(b, i, state), NextState(b, i, state);
      TakenFits(b, i, state);
      LaterTurn(a, b, s, i, state);
      MaskShift(a, b, s, i + n, next);
      SameRest(s, |a| + i, b, i, state, n, next, "");
    }
  }

  /** No token crosses a line break. */
  lemma {:induction false} MaskSplit(a: string, b: string, s: string, i: nat, state: State, rest: string)
    requires EndsLine(a) && i <= |a| && s == a + b && rest == MaskFrom(b, 0, StateFrom(a, i, state))
    ensures MaskFrom(s, i, state) == MaskFrom(a, i, state) + rest
    decreases |a| - i
  {
    if i == |a| {
      MaskShift(a, b, s, 0, state);
    } else {
      var n, next := Taken(a, i, state), NextState(a, i, state);
      assert 0 < n <= |a| - i && StateFrom(a, i, state) == StateFrom(a, i + n, next);
      SameTurn(s, i, a, i, state);
      hide MaskFrom, StateFrom, Taken, NextState, Output;
      MaskSplit(a, b, s, i + n, next, rest);
      SameRest(s, i, a, i, state, n, next, rest);
    }
  }

  /** Masking a text is masking its lines one after the other. */
  lemma {:induction false} MaskByLines(lines: seq<string>, k: nat)
    requires Broken(lines) && k <= |lines|
    ensures MaskFrom(Concat(lines[k..]), 0, StateAt(lines, k)) == Concat(CodeLines(lines)[k..])
    decreases |lines| - k
  {
    if k == |lines| {
      assert lines[k..] == [] && CodeLines(lines)[k..] == [];
    } else {
      var line, later := lines[k], Concat(lines[k + 1..]);
      assert lines[k..][0] == line && lines[k..][1..] == lines[k + 1..];
      assert CodeLines(lines)[k..][0] == CodeOf(lines, k) && CodeLines(lines)[k..][1..] == CodeLines(lines)[k + 1..];
      MaskByLines(lines, k + 1);
      if k + 1 < |lines| {
        MaskSplit(line, later, line + later, 0, StateAt(lines, k), MaskFrom(later, 0, StateAt(lines, k + 1)));
      } else {
        assert lines[k + 1..] == [] && CodeLines(lines)[k + 1..] == [];
        assert line + later == line;
      }
    }
  }

  // What a body leaves behind.

  /** A state the lexer can be in behind a line break. */
  predicate LineStart(state: State) { !state.LineComment? && !(state.Quote? && state.escaped) }

  lemma {:induction false} BreakTurn(s: string, i: nat, state: State)
    requires i < |s| && s[i] == '\n'
    ensures Taken(s, i, state) == 1 && LineStart(NextState(s, i, state))
    ensures LineStart(state) ==> NextState(s, i, state) == state
  {
  }

  lemma {:induction false} TurnInside(s: string, i: nat, state: State)
    requires EndsLine(s) && i < |s| - 1
    ensures i + Taken(s, i, state) <= |s| - 1
  {
  }

  lemma {:induction false} EndsAtStart(s: string, i: nat, state: State)
    requires EndsLine(s) && i < |s|
    ensures LineStart(StateFrom(s, i, state))
    decreases |s| - i
  {
    var n, next := Taken(s, i, state), NextState(s, i, state);
    if i == |s| - 1 {
      BreakTurn(s, i, state);
    } else {
      TurnInside(s, i, state);
      EndsAtStart(s, i + n, next);
    }
  }

  lemma {:induction false} StartsAtLine(lines: seq<string>, k: nat)
    requires Broken(lines) && k < |lines|
    ensures LineStart(StateAt(lines, k))
  {
    if k > 0 { EndsAtStart(lines[k - 1], 0, StateAt(lines, k - 1)); }
  }

  lemma {:induction false} BlankLineKeeps(state: State)
    requires LineStart(state)
    ensures StateFrom("\n", 0, state) == state
  {
    BreakTurn("\n", 0, state);
    assert StateFrom("\n", 1, state) == state;
  }

  // Runs of lines of std bodies.

  predicate AllStd(lines: seq<string>, a: nat, b: nat)
    requires b <= |lines|
  {
    forall k :: a <= k < b ==> StdBody(lines, k)
  }

  /** The lines from a to b, and no more, are of a std body. */
  predicate BodyRun(lines: seq<string>, a: nat, b: nat)
  {
    a < b < |lines| && AllStd(lines, a, b) && !StdBody(lines, b) && (a == 0 || !StdBody(lines, a - 1))
  }

  /** Every std body leaves the lexer in the state in which it found it. */
  predicate Balanced(lines: seq<string>)
  {
    forall a, b :: 0 <= a < b < |lines| && BodyRun(lines, a, b) ==> StateAt(lines, a) == StateAt(lines, b)
  }

  /** Blanked lines do not change the state. */
  lemma {:induction false} RunKeeps(lines: seq<string>, masked: seq<string>, a: nat, k: nat)
    requires Broken(lines) && Broken(masked) && masked == MaskedLines(lines)
    requires a <= k < |lines| && AllStd(lines, a, k)
    ensures StateAt(masked, k) == StateAt(masked, a)
    decreases k
  {
    if a < k {
      var n := k - 1;
      RunKeeps(lines, masked, a, n);
      assert StdBody(lines, n) && EndsLine(lines[n]) && masked[n] == MaskedLine(lines, n);
      StartsAtLine(masked, n);
      BlankLineKeeps(StateAt(masked, n));
    }
  }

  lemma {:induction false} RunBefore(lines: seq<string>, b: nat, k: nat) returns (a: nat)
    requires k < b < |lines| && AllStd(lines, k, b) && !StdBody(lines, b)
    ensures a <= k && BodyRun(lines, a, b)
    decreases k
  {
    if k == 0 || !StdBody(lines, k - 1) { a := k; } else { a := RunBefore(lines, b, k - 1); }
  }

  /** At the start of line k the lexer is in the same state with the bodies and without. */
  predicate SameStart(lines: seq<string>, masked: seq<string>, k: nat)
    requires |masked| == |lines| && k <= |lines|
  {
    StateAt(masked, k) == StateAt(lines, k)
  }

  lemma {:induction false} SameNext(lines: seq<string>, masked: seq<string>, k: nat)
    requires masked == MaskedLines(lines) && k < |lines| && !StdBody(lines, k) && SameStart(lines, masked, k)
    ensures SameStart(lines, masked, k + 1)
  {
    assert masked[k] == MaskedLine(lines, k);
  }

  lemma {:induction false} KeptSame(lines: seq<string>, masked: seq<string>, k: nat)
    requires Broken(lines) && Broken(masked) && masked == MaskedLines(lines) && Balanced(lines)
    requires k < |lines| && !StdBody(lines, k)
    ensures SameStart(lines, masked, k)
    decreases k
  {
    assert SameStart(lines, masked, 0);
    hide StateAt, StdBody, Broken;
    if k > 0 && !StdBody(lines, k - 1) {
      KeptSame(lines, masked, k - 1);
      SameNext(lines, masked, k - 1);
    } else if k > 0 {
      var a := RunBefore(lines, k, k - 1);
      if a > 0 {
        KeptSame(lines, masked, a - 1);
        SameNext(lines, masked, a - 1);
      }
      RunKeeps(lines, masked, a, k);
    }
  }

  predicate AllKeptSame(lines: seq<string>, masked: seq<string>)
    requires |masked| == |lines|
  {
    forall k :: 0 <= k < |lines| && !StdBody(lines, k) ==> SameStart(lines, masked, k)
  }

  lemma {:induction false} RunBalanced(lines: seq<string>, masked: seq<string>, a: nat, b: nat)
    requires Broken(lines) && Broken(masked) && masked == MaskedLines(lines) && AllKeptSame(lines, masked)
    requires BodyRun(lines, a, b)
    ensures StateAt(lines, a) == StateAt(lines, b)
  {
    assert SameStart(lines, masked, 0);
    hide StateAt, StdBody, Broken;
    if a > 0 {
      assert SameStart(lines, masked, a - 1);
      SameNext(lines, masked, a - 1);
    }
    RunKeeps(lines, masked, a, b);
    assert SameStart(lines, masked, b);
  }

  /**
   * Blanking the std bodies leaves the lexer as it was at the start of every other line
   * exactly when every std body leaves it in the state in which it found it.
   */
  lemma {:induction false} KeptExactly(source: string, lines: seq<string>, masked: seq<string>)
    requires lines == Lines(source) && masked == MaskedLines(lines)
    ensures AllKeptSame(lines, masked) <==> Balanced(lines)
  {
    LinesBroken(source);
    MaskedBroken(lines);
    if Balanced(lines) {
      forall k | 0 <= k < |lines| && !StdBody(lines, k) ensures SameStart(lines, masked, k) {
        KeptSame(lines, masked, k);
      }
    }
    if AllKeptSame(lines, masked) {
      forall a, b | 0 <= a < b < |lines| && BodyRun(lines, a, b) ensures StateAt(lines, a) == StateAt(lines, b) {
        RunBalanced(lines, masked, a, b);
      }
    }
  }

  /** Then what is code on every other line is what it was: the masked texts are the same there. */
  lemma {:induction false} KeptLinesAgree(source: string, lines: seq<string>, masked: seq<string>, k: nat)
    requires lines == Lines(source) && masked == MaskedLines(lines) && Balanced(lines)
    requires k < |lines| && !StdBody(lines, k)
    ensures Mask(source) == Concat(CodeLines(lines)) && Mask(Concat(masked)) == Concat(CodeLines(masked))
    ensures CodeLines(masked)[k] == CodeLines(lines)[k]
  {
    LinesBroken(source);
    MaskedBroken(lines);
    WholeByLines(lines);
    WholeByLines(masked);
    KeptSame(lines, masked, k);
    assert masked[k] == MaskedLine(lines, k);
  }

  lemma {:induction false} WholeByLines(lines: seq<string>)
    requires Broken(lines)
    ensures Mask(Concat(lines)) == Concat(CodeLines(lines))
  {
    MaskByLines(lines, 0);
    assert lines[0..] == lines && CodeLines(lines)[0..] == CodeLines(lines);
  }

  /** A source with such a mark anywhere is masked, and no other is changed. */
  lemma {:induction false} MarkedIsMasked(source: string)
    ensures (exists a: string, b: string :: source == a + ("// module: std:" + b)) ==>
              WithoutStd(source) == Concat(MaskedLines(Lines(source)))
    ensures WithoutStd(source) == source || WithoutStd(source) == Concat(MaskedLines(Lines(source)))
    ensures (forall i :: !OccursAt(source, "// module: std:", i)) ==> WithoutStd(source) == source
  {
    if a: string, b: string :| source == a + ("// module: std:" + b) {
      assert OccursAt(source, STD_MARK, |a|);
      if Find(source, STD_MARK, 0) < 0 { FindFirst(source, STD_MARK, 0, |a|); }
    }
  }

  // Template literals across the bounds of a body.

  const OPENING := "`\n"
  const HEADER := "// module: std:x\n"

  lemma {:induction false} HeaderIsStd(std: bool)
    ensures IsHeader(HEADER) && StdAfter(HEADER, std) && !StdAfter(OPENING, false)
  {
    TrimNothing("std:x");
    StdName();
  }

  lemma {:induction false} StdName()
    ensures TrimStart(HEADER) == HEADER && "std:" <= Trim(HEADER[|MODULE_MARK|..])
  {
    var rest := HEADER[|MODULE_MARK|..];
    assert rest == "std:x" + ['\n'];
    TrimEndMore("std:x", '\n');
    TrimTrimmedEnd(rest);
    TrimTrimmedEnd("std:x");
    TrimNothing("std:x");
  }

  lemma {:induction false} OpeningState()
    ensures StateFrom(OPENING, 0, Code) == Quote('`', false)
  {
    assert StateFrom(OPENING, 2, Quote('`', false)) == Quote('`', false);
    assert StateFrom(OPENING, 1, Quote('`', false)) == Quote('`', false);
  }

  predicate Plain(s: string, q: char) { forall i :: 0 <= i < |s| ==> s[i] != q && s[i] != '\\' }

  /** A text without the quote and without backslashes stays inside the literal. */
  lemma {:induction false} StaysQuoted(s: string, i: nat, q: char)
    requires i <= |s| && Plain(s, q)
    ensures StateFrom(s, i, Quote(q, false)) == Quote(q, false)
    decreases |s| - i
  {
    if i < |s| { StaysQuoted(s, i + 1, q); }
  }

  lemma {:induction false} InTemplate(lines: seq<string>)
    requires |lines| > 2 && lines[0] == OPENING && lines[1] == HEADER
    ensures StateAt(lines, 1) == Quote('`', false)
  {
    OpeningState();
    assert StateAt(lines, 0) == Code;
  }

  const ENTRY := "// entry module: "

  /** The mark of the entry module ends a std body, whatever its name. */
  lemma {:induction false} EntryEnds(name: string, std: bool)
    ensures !StdAfter(ENTRY + name, std) && !IsHeader(ENTRY + name)
  {
    var line := ENTRY + name;
    assert line[0] == '/' && TrimStart(line) == line;
    assert line[3] == 'e' && MODULE_MARK[3] == 'm';
  }

  const USER := "// module: m\n"

  lemma {:induction false} UserHeader()
    ensures IsHeader(USER) && !StdAfter(USER, true)
  {
    var rest := USER[|MODULE_MARK|..];
    assert TrimStart(USER) == USER && rest == "m" + ['\n'];
    TrimEndMore("m", '\n');
    TrimTrimmedEnd(rest);
    TrimTrimmedEnd("m");
    TrimNothing("m");
    assert Trim(rest) == "m";
  }

  /** A line comment ends with its line. */
  lemma {:induction false} CommentEnds(s: string, i: nat)
    requires EndsLine(s) && OneLine(s) && i < |s|
    ensures StateFrom(s, i, LineComment) == Code
    decreases |s| - i
  {
    if i < |s| - 1 { CommentEnds(s, i + 1); } else { assert StateFrom(s, i + 1, Code) == Code; }
  }

  lemma {:induction false} CommentLine(s: string)
    requires EndsLine(s) && OneLine(s) && |s| > 2 && s[0] == '/' && s[1] == '/'
    ensures StateFrom(s, 0, Code) == Code
  {
    CommentEnds(s, 2);
    assert Taken(s, 0, Code) == 2 && NextState(s, 0, Code) == LineComment;
  }

  lemma {:induction false} HeaderIsComment()
    ensures StateFrom(HEADER, 0, Code) == Code && StateFrom(USER, 0, Code) == Code
  {
    hide StateFrom;
    CommentLine(HEADER);
    CommentLine(USER);
  }

  lemma {:induction false} StateNext(lines: seq<string>, k: nat, line: string, from: State, to: State)
    requires k < |lines| && lines[k] == line && StateAt(lines, k) == from && StateFrom(line, 0, from) == to
    ensures StateAt(lines, k + 1) == to
  {
    hide StateFrom;
  }

  lemma {:induction false} OpenStates(lines: seq<string>, line: string)
    requires lines == [HEADER, OPENING, USER, line]
    ensures StateAt(lines, 1) == Code && StateAt(lines, 2) == Quote('`', false) && StateAt(lines, 3) == Quote('`', false)
  {
    assert StateAt(lines, 0) == Code;
    assert Plain(USER, '`');
    hide StateFrom, StateAt, Plain;
    HeaderIsComment();
    OpeningState();
    StaysQuoted(USER, 0, '`');
    StateNext(lines, 0, HEADER, Code, Code);
    StateNext(lines, 1, OPENING, Code, Quote('`', false));
    StateNext(lines, 2, USER, Quote('`', false), Quote('`', false));
  }

  lemma {:induction false} OpenBodies(lines: seq<string>, line: string)
    requires lines == [HEADER, OPENING, USER, line]
    ensures !StdBody(lines, 0) && StdBody(lines, 1) && !StdBody(lines, 2) && !StdBody(lines, 3)
  {
    HeaderIsStd(false);
    OpeningPlain();
    UserHeader();
    assert InStd(lines, 1) && InStd(lines, 2) && !InStd(lines, 3);
  }

  lemma {:induction false} OpeningPlain()
    ensures !IsHeader(OPENING) && StdAfter(OPENING, true)
  {
    assert TrimStart(OPENING) == OPENING && TrimStart(OPENING)[0] != '/';
  }

  /** Where that fails: behind a std body that opens a template, the next module's code changes. */
  lemma {:induction false} OpenBodyChanges(lines: seq<string>, masked: seq<string>, line: string)
    requires lines == [HEADER, OPENING, USER, line] && masked == MaskedLines(lines)
    ensures !StdBody(lines, 3) && StateAt(lines, 3) == Quote('`', false) && StateAt(masked, 3) == Code
    ensures !Balanced(lines)
  {
    OpenStates(lines, line);
    OpenBodies(lines, line);
    assert masked[0] == HEADER && masked[1] == "\n" && masked[2] == USER;
    assert StateAt(masked, 0) == Code;
    hide StateFrom, StateAt, StdBody, MaskedLines;
    HeaderIsComment();
    BlankLineKeeps(Code);
    StateNext(masked, 0, HEADER, Code, Code);
    StateNext(masked, 1, "\n", Code, Code);
    StateNext(masked, 2, USER, Code, Code);
    assert BodyRun(lines, 1, 2);
  }

  /** Bodies are told by their lines alone: behind a header line inside a template, any line is blanked. */
  lemma {:induction false} TemplateHides(lines: seq<string>, line: string)
    requires lines == [OPENING, HEADER, line] && !IsHeader(line) && !(ENTRY_MARK <= TrimStart(line))
    ensures StdBody(lines, 2) && MaskedLine(lines, 2) == (if EndsLine(line) then "\n" else "")
    ensures StateAt(lines, 1) == Quote('`', false)
  {
    HeaderIsStd(InStd(lines, 1));
    assert InStd(lines, 2);
    InTemplate(lines);
  }
}
