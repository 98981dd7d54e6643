/** The lexical regions of a source text, and what masking does to each of them. */
module Regions {

  import opened Masking
  import opened Sequences

  /** A piece of a quoted literal: one ordinary character, or a backslash and what it escapes. */
  datatype Unit = Single(c: char) | Escape(c: char)

  datatype Ending = Closed | Cut | CutAfterBackslash

  datatype Region =
    | Plain(c: char)
    | Literal(quote: char, body: seq<Unit>, ending: Ending)
    | ToLineEnd(text: string)
    | Block(text: string, closed: bool)

  function UnitText(u: Unit): string
  {
    match u
    case Single(c) => [c]
    case Escape(c) => ['\\', c]
  }

  function BodyText(body: seq<Unit>): string
  {
    if body == [] then "" else UnitText(body[0]) + BodyText(body[1..])
  }

  function EndingText(quote: char, ending: Ending): string
  {
    match ending
    case Closed => [quote]
    case Cut => ""
    case CutAfterBackslash => "\\"
  }

  function RegionText(r: Region): string
  {
    match r
    case Plain(c) => [c]
    case Literal(quote, body, ending) => [quote] + (BodyText(body) + EndingText(quote, ending))
    case ToLineEnd(text) => "//" + text
    case Block(text, closed) => "/*" + (text + if closed then "*/" else "")
  }

  function SourceText(rs: seq<Region>): string
  {
    if rs == [] then "" else RegionText(rs[0]) + SourceText(rs[1..])
  }

  predicate PlainUnit(u: Unit, quote: char)
  {
    u.Single? ==> u.c != quote && u.c != '\\'
  }

  predicate BlockEndsAt(text: string, k: nat)
  {
    k + 1 < |text| && text[k] == '*' && text[k + 1] == '/'
  }

  /** The region ends where it must, given the text that follows it. */
  ghost predicate Fits(r: Region, rest: string)
  {
    match r
    case Plain(c) => !IsQuote(c) && !(c == '/' && rest != "" && (rest[0] == '/' || rest[0] == '*'))
    case Literal(quote, body, ending) =>
      && IsQuote(quote) && (forall k :: 0 <= k < |body| ==> PlainUnit(body[k], quote))
      && (ending.Closed? || rest == "")
    case ToLineEnd(text) =>
      '\n' !in text && (rest == "" || rest[0] == '\n')
    case Block(text, closed) =>
      (forall k: nat :: !BlockEndsAt(text, k)) && (closed || rest == "")
  }

  ghost predicate Lexed(rs: seq<Region>)
  {
    rs == [] || (Fits(rs[0], SourceText(rs[1..])) && Lexed(rs[1..]))
  }

  function Blank(s: string): string
  {
    if s == "" then "" else [BlankChar(s[0])] + Blank(s[1..])
  }

  function MaskedRegion(r: Region): string
  {
    if r.Plain? then [r.c] else Blank(RegionText(r))
  }

  function MaskedRegions(rs: seq<Region>): string
  {
    if rs == [] then "" else MaskedRegion(rs[0]) + MaskedRegions(rs[1..])
  }

  // Masking region by region.

  /** At position i of s stands t. */
  predicate At(s: string, i: nat, t: string) { i + |t| <= |s| && s[i..i + |t|] == t }

  lemma {:induction false} AtParts(s: string, i: nat, a: string, b: string)
    requires At(s, i, a + b)
    ensures At(s, i, a) && At(s, i + |a|, b)
  {
    var t := s[i..i + |a + b|];
    assert t[..|a|] == a && t[|a|..] == b;
  }

  lemma {:induction false} AtFirst(s: string, i: nat, t: string)
    requires At(s, i, t) && t != ""
    ensures i < |s| && s[i] == t[0]
  {
    assert s[i..i + |t|][0] == s[i];
  }

  lemma {:induction false} BlankAppend(a: string, b: string)
    ensures Blank(a + b) == Blank(a) + Blank(b)
  {
    if a == "" {
      assert a + b == b;
    } else {
      assert (a + b)[1..] == a[1..] + b;
      BlankAppend(a[1..], b);
    }
  }

  lemma {:induction false} BlankOne(c: char)
    ensures Blank([c]) == [BlankChar(c)]
  {
    assert [c][1..] == "" && Blank("") == "";
  }

  lemma {:induction false} BlankTwo(a: char, b: char)
    ensures Blank([a, b]) == [BlankChar(a), BlankChar(b)]
  {
    assert [a, b][1..] == [b];
    BlankOne(b);
  }

  /** From state a at i the lexer blanks t and is then in state b. */
  predicate Blanks(s: string, i: nat, a: State, t: string, b: State)
  {
    i + |t| <= |s| && MaskFrom(s, i, a) == Blank(t) + MaskFrom(s, i + |t|, b)
  }

  lemma {:induction false} Cut2(s: string, i: nat, m: nat, j: nat)
    requires i <= m <= j <= |s|
    ensures s[i..j] == s[i..m] + s[m..j]
  {
  }

  lemma {:induction false} BlanksThen(s: string, i: nat, a: State, t: string, b: State, u: string, c: State)
    requires Blanks(s, i, a, t, b) && Blanks(s, i + |t|, b, u, c)
    ensures Blanks(s, i, a, t + u, c)
  {
    var rest := MaskFrom(s, i + |t| + |u|, c);
    assert MaskFrom(s, i, a) == Blank(t) + (Blank(u) + rest);
    Regroup(Blank(t), Blank(u), rest);
    BlankAppend(t, u);
    assert i + |t + u| == i + |t| + |u|;
  }

  lemma {:induction false} BlanksNothing(s: string, i: nat, a: State)
    requires i <= |s|
    ensures Blanks(s, i, a, "", a)
  {
    assert Blank("") == "";
  }

  lemma {:induction false} BlanksOne(s: string, i: nat, a: State)
    requires i < |s| && Taken(s, i, a) == 1 && (a.Code? ==> IsQuote(s[i]))
    ensures Blanks(s, i, a, [s[i]], NextState(s, i, a))
  {
    BlankOne(s[i]);
  }

  lemma {:induction false} UnitBlanks(s: string, i: nat, u: Unit, quote: char)
    requires At(s, i, UnitText(u)) && PlainUnit(u, quote) && IsQuote(quote)
    ensures Blanks(s, i, Quote(quote, false), UnitText(u), Quote(quote, false))
  {
    hide Blanks;
    AtFirst(s, i, UnitText(u));
    BlanksOne(s, i, Quote(quote, false));
    if u.Escape? {
      AtParts(s, i, ['\\'], [u.c]);
      AtFirst(s, i + 1, [u.c]);
      BlanksOne(s, i + 1, Quote(quote, true));
      BlanksThen(s, i, Quote(quote, false), ['\\'], Quote(quote, true), [u.c], Quote(quote, false));
      assert ['\\'] + [u.c] == ['\\', u.c];
    }
  }

  lemma {:induction false} BodyBlanks(s: string, i: nat, body: seq<Unit>, quote: char)
    requires At(s, i, BodyText(body)) && IsQuote(quote)
    requires forall k :: 0 <= k < |body| ==> PlainUnit(body[k], quote)
    ensures Blanks(s, i, Quote(quote, false), BodyText(body), Quote(quote, false))
    decreases body
  {
    if body == [] {
      BlanksNothing(s, i, Quote(quote, false));
    } else {
      var first, rest := UnitText(body[0]), BodyText(body[1..]);
      AtParts(s, i, first, rest);
      UnitBlanks(s, i, body[0], quote);
      BodyBlanks(s, i + |first|, body[1..], quote);
      BlanksThen(s, i, Quote(quote, false), first, Quote(quote, false), rest, Quote(quote, false));
    }
  }

  lemma {:induction false} EndingBlanks(s: string, i: nat, quote: char, ending: Ending)
    requires At(s, i, EndingText(quote, ending)) && IsQuote(quote)
    requires ending.Closed? || i + |EndingText(quote, ending)| == |s|
    ensures Blanks(s, i, Quote(quote, false), EndingText(quote, ending), Code)
  {
    if ending.Cut? {
      assert Blank("") == "";
    } else {
      AtFirst(s, i, EndingText(quote, ending));
      BlanksOne(s, i, Quote(quote, false));
    }
  }

  /** The rest of a literal after its opening quote. */
  lemma {:induction false} InsideBlanks(s: string, i: nat, quote: char, body: seq<Unit>, text: string, ending: Ending, end: string)
    requires text == BodyText(body) && end == EndingText(quote, ending)
    requires At(s, i, text + end) && IsQuote(quote)
    requires forall k :: 0 <= k < |body| ==> PlainUnit(body[k], quote)
    requires ending.Closed? || i + |text + end| == |s|
    ensures Blanks(s, i, Quote(quote, false), text + end, Code)
  {
    AtParts(s, i, text, end);
    BodyBlanks(s, i, body, quote);
    EndingBlanks(s, i + |text|, quote, ending);
    BlanksThen(s, i, Quote(quote, false), text, Quote(quote, false), end, Code);
  }

  lemma {:induction false} LiteralBlanks(s: string, i: nat, r: Region)
    requires r.Literal? && At(s, i, RegionText(r)) && Fits(r, s[i + |RegionText(r)|..])
    ensures Blanks(s, i, Code, RegionText(r), Code)
  {
    var body, end := BodyText(r.body), EndingText(r.quote, r.ending);
    var inside := body + end;
    AtParts(s, i, [r.quote], inside);
    InsideBlanks(s, i + 1, r.quote, r.body, body, r.ending, end);
    assert s[i] == r.quote by { AtFirst(s, i, [r.quote]); }
    BlanksOne(s, i, Code);
    BlanksThen(s, i, Code, [r.quote], Quote(r.quote, false), inside, Code);
  }

  lemma {:induction false} LineBlanks(s: string, i: nat, text: string)
    requires At(s, i, text) && '\n' !in text
    ensures Blanks(s, i, LineComment, text, LineComment)
    decreases text
  {
    if text == "" {
      BlanksNothing(s, i, LineComment);
    } else {
      assert text == [text[0]] + text[1..];
      AtParts(s, i, [text[0]], text[1..]);
      AtFirst(s, i, text);
      BlanksOne(s, i, LineComment);
      LineBlanks(s, i + 1, text[1..]);
      BlanksThen(s, i, LineComment, [text[0]], LineComment, text[1..], LineComment);
    }
  }

  /** At the end of the line or of the source the lexer is as good as back in code. */
  lemma {:induction false} LineEnds(s: string, i: nat)
    requires i <= |s| && (i == |s| || s[i] == '\n')
    ensures MaskFrom(s, i, LineComment) == MaskFrom(s, i, Code)
  {
    if i < |s| {
      assert NextState(s, i, LineComment) == NextState(s, i, Code) == Code;
    }
  }

  lemma {:induction false} OpenerBlanks(s: string, i: nat, second: char)
    requires At(s, i, ['/', second]) && (second == '/' || second == '*')
    ensures Blanks(s, i, Code, ['/', second], if second == '/' then LineComment else BlockComment)
  {
    AtParts(s, i, ['/'], [second]);
    AtFirst(s, i, ['/', second]);
    AtFirst(s, i + 1, [second]);
    BlankTwo('/', second);
  }

  lemma {:induction false} BlanksTo(s: string, i: nat, a: State, t: string, b: State, c: State)
    requires Blanks(s, i, a, t, b) && MaskFrom(s, i + |t|, b) == MaskFrom(s, i + |t|, c)
    ensures Blanks(s, i, a, t, c)
  {
  }

  lemma {:induction false} ToLineEndBlanks(s: string, i: nat, r: Region)
    requires r.ToLineEnd? && At(s, i, RegionText(r)) && Fits(r, s[i + |RegionText(r)|..])
    ensures Blanks(s, i, Code, RegionText(r), Code)
  {
    hide Blanks, MaskFrom;
    AtParts(s, i, "//", r.text);
    OpenerBlanks(s, i, '/');
    LineBlanks(s, i + 2, r.text);
    BlanksThen(s, i, Code, "//", LineComment, r.text, LineComment);
    var j := i + |RegionText(r)|;
    assert j < |s| ==> s[j..][0] == s[j];
    LineEnds(s, j);
    BlanksTo(s, i, Code, "//" + r.text, LineComment, Code);
  }

  predicate BlockEnd(s: string, i: nat, end: string)
  {
    end == "*/" || (end == "" && i == |s|)
  }

  lemma {:induction false} BlockEndBlanks(s: string, i: nat, end: string)
    requires At(s, i, end) && BlockEnd(s, i, end)
    ensures Blanks(s, i, BlockComment, end, Code)
  {
    if end == "*/" {
      AtFirst(s, i, "*/");
      AtParts(s, i, "*", "/");
      AtFirst(s, i + 1, "/");
      BlankTwo('*', '/');
    } else {
      assert Blank("") == "";
    }
  }

  lemma {:induction false} BlockBlanks(s: string, i: nat, text: string, end: string)
    requires At(s, i, text + end) && BlockEnd(s, i + |text|, end)
    requires forall k: nat :: !BlockEndsAt(text, k)
    ensures Blanks(s, i, BlockComment, text + end, Code)
    decreases text
  {
    if text == "" {
      assert text + end == end;
      BlockEndBlanks(s, i, end);
    } else {
      var rest := text[1..];
      FirstApart(text, end);
      AtParts(s, i, [text[0]], rest + end);
      BlockNotYet(s, i, text, end);
      BlanksOne(s, i, BlockComment);
      StillNoEnd(text);
      BlockBlanks(s, i + 1, rest, end);
      BlanksThen(s, i, BlockComment, [text[0]], BlockComment, rest + end, Code);
    }
  }

  lemma {:induction false} FirstApart(text: string, end: string)
    requires text != ""
    ensures text + end == [text[0]] + (text[1..] + end)
  {
  }

  lemma {:induction false} StillNoEnd(text: string)
    requires text != "" && forall k: nat :: !BlockEndsAt(text, k)
    ensures forall k: nat :: !BlockEndsAt(text[1..], k)
  {
    forall k: nat ensures !BlockEndsAt(text[1..], k) {
      assert !BlockEndsAt(text, k + 1);
    }
  }

  /** Inside a block comment's text its end has not come yet. */
  lemma {:induction false} BlockNotYet(s: string, i: nat, text: string, end: string)
    requires text != "" && !BlockEndsAt(text, 0) && At(s, i, text + end) && BlockEnd(s, i + |text|, end)
    ensures i < |s| && s[i] == text[0] && Taken(s, i, BlockComment) == 1
  {
    var all := text + end;
    assert s[i..i + |all|][0] == s[i];
    if i + 1 < |s| && |all| > 1 {
      assert all[1] == if |text| > 1 then text[1] else '*';
      assert s[i..i + |all|][1] == s[i + 1];
    }
  }

  lemma {:induction false} BlockRegionBlanks(s: string, i: nat, r: Region)
    requires r.Block? && At(s, i, RegionText(r)) && Fits(r, s[i + |RegionText(r)|..])
    ensures Blanks(s, i, Code, RegionText(r), Code)
  {
    var end := if r.closed then "*/" else "";
    AtParts(s, i, "/*", r.text + end);
    OpenerBlanks(s, i, '*');
    BlockBlanks(s, i + 2, r.text, end);
    BlanksThen(s, i, Code, "/*", BlockComment, r.text + end, Code);
  }

  lemma {:induction false} PlainStays(s: string, i: nat, c: char)
    requires At(s, i, [c]) && Fits(Plain(c), s[i + 1..])
    ensures MaskFrom(s, i, Code) == [c] + MaskFrom(s, i + 1, Code)
  {
    AtFirst(s, i, [c]);
    if i + 1 < |s| { assert s[i + 1..][0] == s[i + 1]; }
  }

  lemma {:induction false} RegionMasked(s: string, i: nat, r: Region)
    requires At(s, i, RegionText(r)) && Fits(r, s[i + |RegionText(r)|..])
    ensures MaskFrom(s, i, Code) == MaskedRegion(r) + MaskFrom(s, i + |RegionText(r)|, Code)
  {
    match r
    case Plain(c) => PlainStays(s, i, c);
    case Literal(_, _, _) => LiteralBlanks(s, i, r);
    case ToLineEnd(_) => ToLineEndBlanks(s, i, r);
    case Block(_, _) => BlockRegionBlanks(s, i, r);
  }

  lemma {:induction false} SuffixParts(s: string, i: nat, a: string, b: string)
    requires i <= |s| && s[i..] == a + b
    ensures At(s, i, a) && s[i + |a|..] == b
  {
    var t := s[i..];
    assert |t| == |a| + |b|;
    assert t[..|a|] == a && t[|a|..] == b;
    assert s[i..i + |a|] == t[..|a|] && s[i + |a|..] == t[|a|..];
  }

  lemma {:induction false} RegionsMasked(s: string, i: nat, rs: seq<Region>)
    requires i <= |s| && s[i..] == SourceText(rs) && Lexed(rs)
    ensures MaskFrom(s, i, Code) == MaskedRegions(rs)
    decreases rs, 1
  {
    if rs == [] {
      assert i == |s|;
    } else {
      var r, later := rs[0], rs[1..];
      var first, rest := RegionText(r), SourceText(later);
      SuffixParts(s, i, first, rest);
      OneRegion(s, i, r, first, rest, MaskedRegions(later), later);
    }
  }

  lemma {:induction false} OneRegion(s: string, i: nat, r: Region, first: string, rest: string, masked: string, later: seq<Region>)
    requires first == RegionText(r) && rest == SourceText(later) && masked == MaskedRegions(later)
    requires At(s, i, first) && s[i + |first|..] == rest && Fits(r, rest) && Lexed(later)
    ensures MaskFrom(s, i, Code) == MaskedRegion(r) + masked
    decreases later, 2
  {
    RegionMasked(s, i, r);
    RegionsMasked(s, i + |first|, later);
  }

  /** Masking blanks exactly the literals and comments of a source. */
  lemma {:induction false} MaskByRegions(rs: seq<Region>)
    requires Lexed(rs)
    ensures Mask(SourceText(rs)) == MaskedRegions(rs)
  {
    assert SourceText(rs)[0..] == SourceText(rs);
    RegionsMasked(SourceText(rs), 0, rs);
  }

  // Every source falls into such regions.

  /** The units of a literal from i on, up to its closing quote or the end of the source. */
  lemma {:induction false} ReadBody(s: string, i: nat, quote: char) returns (body: seq<Unit>, ending: Ending, j: nat)
    requires i <= |s| && IsQuote(quote)
    ensures i <= j <= |s| && s[i..j] == BodyText(body) + EndingText(quote, ending)
    ensures forall k :: 0 <= k < |body| ==> PlainUnit(body[k], quote)
    ensures ending.Closed? || j == |s|
    decreases |s| - i
  {
    if i == |s| {
      body, ending, j := [], Cut, i;
    } else if s[i] == quote {
      body, ending, j := [], Closed, i + 1;
    } else if s[i] == '\\' && i + 1 == |s| {
      body, ending, j := [], CutAfterBackslash, i + 1;
    } else {
      var u := if s[i] == '\\' then Escape(s[i + 1]) else Single(s[i]);
      var rest;
      rest, ending, j := ReadBody(s, i + |UnitText(u)|, quote);
      UnitRead(s, i, u, rest, EndingText(quote, ending), j);
      body := [u] + rest;
    }
  }

  lemma {:induction false} UnitRead(s: string, i: nat, u: Unit, rest: seq<Unit>, end: string, j: nat)
    requires i < |s| && u == (if s[i] == '\\' && i + 1 < |s| then Escape(s[i + 1]) else Single(s[i]))
    requires i + |UnitText(u)| <= j <= |s| && s[i + |UnitText(u)|..j] == BodyText(rest) + end
    ensures s[i..j] == BodyText([u] + rest) + end
  {
    var n := |UnitText(u)|;
    assert s[i..i + n] == UnitText(u);
    Cut2(s, i, i + n, j);
    BodyFront(u, rest, end);
  }

  lemma {:induction false} BodyFront(u: Unit, body: seq<Unit>, end: string)
    ensures UnitText(u) + (BodyText(body) + end) == BodyText([u] + body) + end
  {
    assert ([u] + body)[1..] == body;
  }

  lemma {:induction false} ReadLine(s: string, i: nat) returns (j: nat)
    requires i <= |s|
    ensures i <= j <= |s| && '\n' !in s[i..j] && (j == |s| || s[j] == '\n')
    decreases |s| - i
  {
    if i == |s| || s[i] == '\n' {
      j := i;
    } else {
      j := ReadLine(s, i + 1);
      assert s[i..j] == [s[i]] + s[i + 1..j];
    }
  }

  lemma {:induction false} BlockEndShift(s: string, i: nat, j: nat, k: nat)
    requires i < j <= |s| && k > 0
    ensures BlockEndsAt(s[i..j], k) <==> BlockEndsAt(s[i + 1..j], k - 1)
  {
    assert s[i + 1..j] == s[i..j][1..];
  }

  lemma {:induction false} ReadBlock(s: string, i: nat) returns (j: nat)
    requires i <= |s|
    ensures i <= j <= |s| && (forall k: nat :: !BlockEndsAt(s[i..j], k))
    ensures j == |s| || BlockEndsAt(s, j)
    decreases |s| - i
  {
    if i == |s| || BlockEndsAt(s, i) {
      j := i;
    } else {
      j := ReadBlock(s, i + 1);
      forall k: nat ensures !BlockEndsAt(s[i..j], k) {
        if k == 0 {
          assert |s[i..j]| > 1 ==> s[i..j][0] == s[i] && s[i..j][1] == s[i + 1];
        } else {
          BlockEndShift(s, i, j, k);
        }
      }
    }
  }

  /** The region that starts at i. */
  lemma {:induction false} ReadRegion(s: string, i: nat) returns (r: Region, j: nat)
    requires i < |s|
    ensures i < j <= |s| && s[i..j] == RegionText(r) && Fits(r, s[j..])
  {
    hide BodyText, UnitText, PlainUnit;
    if Opener(s, i) && s[i + 1] == '/' {
      j := ReadLine(s, i + 2);
      r := ToLineEnd(s[i + 2..j]);
      Cut2(s, i, i + 2, j);
      assert s[i..i + 2] == "//";
    } else if Opener(s, i) {
      var k := ReadBlock(s, i + 2);
      j := if k == |s| then k else k + 2;
      r := Block(s[i + 2..k], k != |s|);
      assert s[i..i + 2] == "/*" && s[k..j] == if k == |s| then "" else "*/";
      Cut2(s, i, i + 2, j);
      Cut2(s, i + 2, k, j);
    } else if IsQuote(s[i]) {
      var body, ending;
      body, ending, j := ReadBody(s, i + 1, s[i]);
      r := Literal(s[i], body, ending);
      Cut2(s, i, i + 1, j);
      assert s[i..i + 1] == [s[i]];
    } else {
      r, j := Plain(s[i]), i + 1;
    }
  }

  /** Every source is made of regions, so masking is described by them for every source. */
  lemma {:induction false} EverySourceLexed(s: string, i: nat) returns (rs: seq<Region>)
    requires i <= |s|
    ensures Lexed(rs) && SourceText(rs) == s[i..]
    decreases |s| - i
  {
    if i == |s| {
      rs := [];
    } else {
      var r, j := ReadRegion(s, i);
      var rest := EverySourceLexed(s, j);
      rs := [r] + rest;
      assert rs[1..] == rest;
      assert s[i..] == s[i..j] + s[j..];
    }
  }

  lemma {:induction false} MaskDescribed(s: string) returns (rs: seq<Region>)
    ensures Lexed(rs) && SourceText(rs) == s && Mask(s) == MaskedRegions(rs)
  {
    rs := EverySourceLexed(s, 0);
    assert s[0..] == s;
    MaskByRegions(rs);
  }
}
