/** Linked sources: bodies of std modules are blanked before the strict-mode check. */
module Linked {

  import opened Text
  import opened Masking
  import opened Precheck
  import opened Symbols

  const MODULE_MARK := "// module: "
  const ENTRY_MARK := "// entry module: "
  const STD_MARK := "// module: std:"

  predicate IsHeader(line: string) { MODULE_MARK <= TrimStart(line) }

  /** Whether, from this line on, a std module's body is being read. */
  predicate StdAfter(line: string, std: bool)
  {
    if IsHeader(line) then "std:" <= Trim(TrimStart(line)[|MODULE_MARK|..])
    else std && !(ENTRY_MARK <= TrimStart(line))
  }

  /** After the first k lines a std module's body is being read. */
  predicate InStd(lines: seq<string>, k: nat)
    requires k <= |lines|
  {
    k > 0 && StdAfter(lines[k - 1], InStd(lines, k - 1))
  }

  /** Line k belongs to the body of a std module. */
  predicate StdBody(lines: seq<string>, k: nat)
    requires k < |lines|
  {
    InStd(lines, k + 1) && !IsHeader(lines[k])
  }

  predicate EndsLine(line: string) { line != "" && line[|line| - 1] == '\n' }

  function MaskedLine(lines: seq<string>, k: nat): string
    requires k < |lines|
  {
    if StdBody(lines, k) then (if EndsLine(lines[k]) then "\n" else "") else lines[k]
  }

  function MaskedLines(lines: seq<string>): seq<string>
  {
    seq(|lines|, k requires 0 <= k < |lines| => MaskedLine(lines, k))
  }

  /** Only a source that mentions a std module at all is changed. */
  function WithoutStd(source: string): string
  {
    if Contains(source, STD_MARK) then Concat(MaskedLines(Lines(source))) else source
  }

  lemma {:induction false} ConcatMore(lines: seq<string>, line: string)
    ensures Concat(lines + [line]) == Concat(lines) + line
  {
    if lines == [] {
      assert [] + [line] == [line];
      assert Concat([line][1..]) == "";
    } else {
      assert (lines + [line])[1..] == lines[1..] + [line];
      ConcatMore(lines[1..], line);
    }
  }

  method MaskLinkedStdModuleBodies(source: string) returns (out: string)
    ensures out == WithoutStd(source)
  {
    if !Contains(source, STD_MARK) {
      return source;
    }
    var lines := Lines(source);
    out := "";
    var std, k := false, 0;
    while k < |lines|
      invariant k <= |lines| && std == InStd(lines, k)
      invariant out == Concat(MaskedLines(lines)[..k])
    {
      var line := lines[k];
      var trimmed := TrimStart(line);
      if MODULE_MARK <= trimmed {
        std := "std:" <= Trim(trimmed[|MODULE_MARK|..]);
      } else if ENTRY_MARK <= trimmed {
        std := false;
      }
      assert std == InStd(lines, k + 1);
      assert MaskedLines(lines)[..k + 1] == MaskedLines(lines)[..k] + [MaskedLine(lines, k)];
      ConcatMore(MaskedLines(lines)[..k], MaskedLine(lines, k));
      if std && !(MODULE_MARK <= trimmed) {
        if EndsLine(line) {
          out := out + "\n";
        }
      } else {
        out := out + line;
      }
      k := k + 1;
    }
    assert MaskedLines(lines)[..k] == MaskedLines(lines);
  }

  // Lines and offsets.

  predicate OneLine(line: string) { forall i :: 0 <= i < |line| - 1 ==> line[i] != '\n' }

  /** Line breaks stand at the end of lines only, and only the last line may lack one. */
  predicate Broken(lines: seq<string>)
  {
    && (forall k :: 0 <= k < |lines| ==> OneLine(lines[k]))
    && (forall k :: 0 <= k < |lines| - 1 ==> EndsLine(lines[k]))
  }

  lemma {:induction false} FirstBroken(s: string, n: nat)
    requires s != "" && n == FirstLine(s)
    ensures OneLine(s[..n]) && (n < |s| ==> EndsLine(s[..n])) && s == s[..n] + s[n..]
  {
    FirstLineBreak(s);
  }

  lemma {:induction false} LinesBroken(s: string)
    ensures Broken(Lines(s)) && Concat(Lines(s)) == s
  {
    hide OneLine, EndsLine, FirstLine;
    if s != "" {
      var n := FirstLine(s);
      FirstBroken(s, n);
      LinesBroken(s[n..]);
      var lines, rest := Lines(s), Lines(s[n..]);
      assert lines == [s[..n]] + rest && lines[1..] == rest;
      forall k | 0 <= k < |lines| ensures OneLine(lines[k]) {
        if k > 0 { assert lines[k] == rest[k - 1]; }
      }
      forall k | 0 <= k < |lines| - 1 ensures EndsLine(lines[k]) {
        if k > 0 { assert lines[k] == rest[k - 1]; }
      }
    }
  }

  /** Masking a line keeps its place: the masked lines break where the lines do. */
  lemma {:induction false} MaskedBroken(lines: seq<string>)
    requires Broken(lines)
    ensures Broken(MaskedLines(lines))
  {
    var masked := MaskedLines(lines);
    forall k | 0 <= k < |masked| ensures OneLine(masked[k]) && (k < |masked| - 1 ==> EndsLine(masked[k])) {
      assert OneLine(lines[k]) && masked[k] == MaskedLine(lines, k);
    }
  }

  lemma {:induction false} BreaksAppend(a: string, b: string)
    ensures LineBreaks(a + b) == LineBreaks(a) + LineBreaks(b)
    decreases b
  {
    if b == "" {
      assert a + b == a;
    } else {
      var n := |b| - 1;
      assert (a + b)[..|a + b| - 1] == a + b[..n];
      BreaksAppend(a, b[..n]);
    }
  }

  lemma {:induction false} NoBreaks(s: string)
    requires forall i :: 0 <= i < |s| ==> s[i] != '\n'
    ensures LineBreaks(s) == 0
  {
    if s != "" { NoBreaks(s[..|s| - 1]); }
  }

  lemma {:induction false} OneBreak(line: string)
    requires EndsLine(line) && OneLine(line)
    ensures LineBreaks(line) == 1
  {
    NoBreaks(line[..|line| - 1]);
  }

  /** Line k of the text starts at `start`, and all of it is in the text. */
  predicate LineAt(text: string, lines: seq<string>, k: nat, start: nat)
    requires k < |lines|
  {
    OccursAt(text, lines[k], start) && (k == |lines| - 1 ==> start + |lines[k]| == |text|)
  }

  /** The offset lies on line k, which starts at `start`; the line breaks before it tell so. */
  predicate Here(text: string, lines: seq<string>, offset: nat, k: nat, start: nat)
  {
    && offset <= |text| && k < |lines| && k == LineBreaks(text[..offset])
    && LineAt(text, lines, k, start) && start <= offset < start + |lines[k]|
  }

  lemma {:induction false} Moved(first: string, later: string, lines: seq<string>, at: nat, k: nat, start: nat)
    requires lines != [] && EndsLine(first) && OneLine(first) && first == lines[0]
    requires Here(later, lines[1..], at, k, start)
    ensures Here(first + later, lines, |first| + at, k + 1, |first| + start)
  {
    BreaksBefore(first, later, at);
    LaterLine(first, later, lines, k, start);
  }

  /** The line an offset lies on is told by the line breaks before it. */
  lemma {:induction false} Locate(lines: seq<string>, text: string, offset: nat) returns (k: nat, start: nat)
    requires Broken(lines) && text == Concat(lines) && offset < |text|
    ensures Here(text, lines, offset, k, start)
    decreases lines, 1
  {
    k, start := LocateFrom(lines[0], Concat(lines[1..]), lines, offset);
  }

  lemma {:induction false} LocateFrom(first: string, later: string, lines: seq<string>, offset: nat)
    returns (k: nat, start: nat)
    requires Broken(lines) && lines != [] && first == lines[0] && later == Concat(lines[1..])
    requires offset < |first + later|
    ensures Here(first + later, lines, offset, k, start)
    decreases lines, 0
  {
    hide Here, LineAt, LineBreaks;
    assert OneLine(first);
    if offset < |first| {
      k, start := 0, 0;
      OnFirstLine(first, later, lines, offset);
    } else {
      var at := offset - |first|;
      assert lines[1..] != [] && |lines| > 1 && EndsLine(first);
      RestBroken(lines);
      var l, from := Locate(lines[1..], later, at);
      k, start := l + 1, |first| + from;
      Moved(first, later, lines, at, l, from);
    }
  }

  lemma {:induction false} OnFirstLine(first: string, later: string, lines: seq<string>, offset: nat)
    requires lines != [] && first == lines[0] && later == Concat(lines[1..]) && offset < |first|
    requires OneLine(first)
    ensures Here(first + later, lines, offset, 0, 0)
  {
    NoBreaks((first + later)[..offset]);
    if |lines| == 1 { assert lines[1..] == []; }
  }

  lemma {:induction false} RestBroken(lines: seq<string>)
    requires Broken(lines) && lines != []
    ensures Broken(lines[1..])
  {
    var rest := lines[1..];
    forall k | 0 <= k < |rest| ensures OneLine(rest[k]) && (k < |rest| - 1 ==> EndsLine(rest[k])) {
      assert rest[k] == lines[k + 1] && OneLine(lines[k + 1]);
    }
  }

  lemma {:induction false} BreaksBefore(first: string, later: string, at: nat)
    requires at <= |later| && EndsLine(first) && OneLine(first)
    ensures LineBreaks((first + later)[..|first| + at]) == 1 + LineBreaks(later[..at])
  {
    assert (first + later)[..|first| + at] == first + later[..at];
    BreaksAppend(first, later[..at]);
    OneBreak(first);
  }

  lemma {:induction false} LaterLine(first: string, later: string, lines: seq<string>, l: nat, from: nat)
    requires lines != [] && l < |lines[1..]| && LineAt(later, lines[1..], l, from)
    ensures LineAt(first + later, lines, l + 1, |first| + from)
  {
    var line := lines[1..][l];
    forall i | 0 <= i < |line| ensures (first + later)[|first| + from + i] == line[i] {
      assert later[from + i] == line[i];
    }
  }

  // What the check reports.

  /** An occurrence that goes on behind the line it starts on holds a line break. */
  lemma {:induction false} CrossesBreak(text: string, lines: seq<string>, k: nat, start: nat, t: string, offset: nat)
    requires Broken(lines) && k < |lines| && LineAt(text, lines, k, start)
    requires start <= offset < start + |lines[k]| && OccursAt(text, t, offset) && offset + |t| > start + |lines[k]|
    ensures '\n' in t
  {
    var line, last := lines[k], |lines[k]| - 1;
    assert EndsLine(line) && text[start + last] == line[last];
    assert text[offset + (start + last - offset)] == t[start + last - offset];
    assert t[start + last - offset] == '\n';
  }

  /** A use on which no line break falls lies on one line. */
  lemma {:induction false} WithinLine(text: string, lines: seq<string>, k: nat, start: nat, t: string, offset: nat)
    requires Broken(lines) && k < |lines| && LineAt(text, lines, k, start)
    requires start <= offset < start + |lines[k]| && OccursAt(text, t, offset) && '\n' !in t
    ensures OccursAt(lines[k], t, offset - start)
  {
    var line, column := lines[k], offset - start;
    assert OneLine(line);
    if column + |t| > |line| {
      CrossesBreak(text, lines, k, start, t, offset);
      assert false;
    }
    forall i | 0 <= i < |t| ensures line[column + i] == t[i] {
      assert text[start + (column + i)] == line[column + i] && text[offset + i] == t[i];
    }
  }

  /** A symbol found in the masked text stands in the text itself. */
  lemma {:induction false} Unmasked(text: string, t: string, offset: nat)
    requires OccursAt(Mask(text), t, offset) && ' ' !in t
    ensures OccursAt(text, t, offset)
  {
    MaskKeeps(text);
    forall i | 0 <= i < |t| ensures text[offset + i] == t[i] {
      assert Mask(text)[offset + i] == t[i];
    }
  }

  /** The symbol stands at this column of this line of the source, outside every std body. */
  predicate Blames(source: string, symbol: string, line: nat, column: int)
  {
    && 1 <= line <= |Lines(source)| && OccursAt(Lines(source)[line - 1], symbol, column)
    && (Contains(source, STD_MARK) ==> !StdBody(Lines(source), line - 1))
  }

  /** An occurrence in lines put together lies on the line that the line breaks before it tell. */
  lemma {:induction false} OnItsLine(lines: seq<string>, text: string, t: string, offset: nat) returns (k: nat, column: nat)
    requires Broken(lines) && text == Concat(lines) && OccursAt(text, t, offset) && t != "" && '\n' !in t
    ensures k == LineBreaks(text[..offset]) && k < |lines| && OccursAt(lines[k], t, column)
  {
    var start;
    k, start := Locate(lines, text, offset);
    WithinLine(text, lines, k, start, t, offset);
    column := offset - start;
  }

  lemma {:induction false} FirstOccurs(s: string, t: string, i: nat)
    requires t != "" && OccursAt(s, t, i)
    ensures i < |s| && s[i] in t
  {
    assert s[i + 0] == t[0];
  }

  /** No symbol stands on a blanked line. */
  lemma {:induction false} NotBlanked(lines: seq<string>, k: nat, t: string, column: nat)
    requires k < |lines| && t != "" && '\n' !in t && OccursAt(MaskedLine(lines, k), t, column)
    ensures !StdBody(lines, k) && OccursAt(lines[k], t, column)
  {
    FirstOccurs(MaskedLine(lines, k), t, column);
  }

  /** A use found in what is left without the std bodies is on a line of the original source. */
  lemma {:induction false} BlameIsReal(source: string, text: string, symbol: string, offset: nat) returns (column: nat)
    requires Searchable(symbol) && text == WithoutStd(source)
    requires OccursAt(Mask(text), symbol, offset) && offset <= |text|
    ensures Blames(source, symbol, LineBreaks(text[..offset]) + 1, column)
  {
    var lines := Lines(source);
    LinesBroken(source);
    Unmasked(text, symbol, offset);
    var k;
    if Contains(source, STD_MARK) {
      MaskedBroken(lines);
      k, column := OnItsLine(MaskedLines(lines), text, symbol, offset);
      NotBlanked(lines, k, symbol, column);
    } else {
      k, column := OnItsLine(lines, text, symbol, offset);
    }
  }

  /**
   * Strict mode's check. It reports what the search finds in the source without std
   * bodies, and the line it names is that of the original source.
   */
  method PrecheckSymbolUsage(source: string, symbols: seq<string>, strict: bool) returns (r: Match)
    requires AllSearchable(symbols)
    ensures !strict ==> r == NoMatch
    ensures strict ==> Reports(WithoutStd(source), symbols, r)
    ensures r.Match? ==> exists column :: Blames(source, r.symbol, r.line, column)
  {
    if !strict {
      return NoMatch;
    }
    var checked := MaskLinkedStdModuleBodies(source);
    r := FindFirstUsage(checked, symbols);
    if r.Match? {
      ghost var offset, which :| ReportAt(checked, symbols, r, offset, which);
      ghost var column := BlameIsReal(source, checked, r.symbol, offset);
    }
  }

  /** The check with the list of symbols it is made for. */
  method PrecheckNodeCompatSymbolUsage(source: string, strict: bool) returns (r: Match)
    ensures !strict ==> r == NoMatch
    ensures strict ==> Reports(WithoutStd(source), NODE_COMPAT_SYMBOLS, r)
    ensures r.Match? ==> exists column :: Blames(source, r.symbol, r.line, column)
  {
    SymbolsSearchable();
    r := PrecheckSymbolUsage(source, NODE_COMPAT_SYMBOLS, strict);
  }
}
