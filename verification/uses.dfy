/** What the search takes for a use of a symbol, and what for a declaration, by the text around it. */
module Uses {

  import opened Sequences
  import opened Text
  import opened Masking
  import opened Scanning
  import opened Precheck

  predicate Blank(s: string) { forall i :: 0 <= i < |s| ==> AsciiSpace(s[i]) }

  lemma {:induction false} SkipsTo(s: string, from: nat, to: nat)
    requires from <= to <= |s| && (forall i :: from <= i < to ==> AsciiSpace(s[i])) && (to == |s| || !AsciiSpace(s[to]))
    ensures SkipSpaces(s, from) == to
    decreases |s| - from
  {
    if from < to { SkipsTo(s, from + 1, to); }
  }

  // Names that are no uses.

  /** A token followed by a colon is a key. */
  lemma {:induction false} KeyIsNoUse(a: string, t: string, space: string, b: string, s: string)
    requires '.' !in t && Blank(space) && s == a + (t + (space + (":" + b)))
    ensures !Use(s, t, |a|)
  {
    var end, n := |a| + |t|, |a| + |t| + |space|;
    assert s[n] == ':';
    forall i | end <= i < n ensures AsciiSpace(s[i]) { assert s[i] == space[i - end]; }
    SkipsTo(s, end, n);
  }

  lemma {:induction false} DotBefore(s: string, i: nat, dot: nat)
    requires dot < i <= |s| && s[dot] == '.' && forall k :: dot < k < i ==> AsciiSpace(s[k])
    ensures AfterDot(s, i)
    decreases i
  {
    if dot < i - 1 { DotBefore(s, i - 1, dot); }
  }

  /** A token behind a dot is a member. */
  lemma {:induction false} MemberIsNoUse(a: string, space: string, t: string, b: string, s: string)
    requires '.' !in t && Blank(space) && s == a + ("." + (space + (t + b)))
    ensures !Use(s, t, |a| + 1 + |space|)
  {
    var i := |a| + 1 + |space|;
    assert s[|a|] == '.';
    forall k | |a| < k < i ensures AsciiSpace(s[k]) { assert s[k] == space[k - |a| - 1]; }
    DotBefore(s, i, |a|);
  }

  /** Parentheses that match. */
  predicate Matched(s: string)
  {
    Balance(s, 0, |s|) == 0 && forall k :: 0 <= k <= |s| ==> Balance(s, 0, k) >= 0
  }

  lemma {:induction false} BalanceInside(s: string, open: nat, args: string, k: nat)
    requires open < |s| && s[open] == '(' && open + 1 + |args| <= |s| && k <= |args|
    requires forall i :: 0 <= i < |args| ==> s[open + 1 + i] == args[i]
    ensures Balance(s, open, open + 1 + k) == 1 + Balance(args, 0, k)
    decreases k
  {
    if k == 0 {
      assert Balance(s, open, open) == 0;
    } else {
      BalanceInside(s, open, args, k - 1);
      assert s[open + k] == args[k - 1];
    }
  }

  lemma {:induction false} MatchedCloses(s: string, open: nat, args: string, j: nat)
    requires Matched(args) && j == open + 1 + |args| < |s| && s[open] == '(' && s[j] == ')'
    requires forall i :: 0 <= i < |args| ==> s[open + 1 + i] == args[i]
    ensures ClosesAt(s, open, j)
  {
    forall k | open < k <= j ensures Balance(s, open, k) > 0 {
      BalanceInside(s, open, args, k - open - 1);
    }
    BalanceInside(s, open, args, |args|);
  }

  /** What stands between a token and the text behind its parameters. */
  function Parameters(space: string, args: string): string { space + ("(" + (args + ")")) }

  lemma {:induction false} ParametersAt(s: string, end: nat, space: string, args: string, n: nat, j: nat)
    requires Blank(space) && Matched(args) && OccursAt(s, Parameters(space, args), end)
    requires n == end + |space| && j == n + 1 + |args|
    ensures SkipSpaces(s, end) == n < |s| && s[n] == '(' && ClosesAt(s, n, j) && j + 1 == end + |Parameters(space, args)|
  {
    var p := Parameters(space, args);
    forall i | end <= i < n ensures AsciiSpace(s[i]) { assert s[end + (i - end)] == p[i - end] == space[i - end]; }
    assert s[end + |space|] == p[|space|] == '(';
    assert s[end + (|p| - 1)] == p[|p| - 1] == ')';
    forall i | 0 <= i < |args| ensures s[n + 1 + i] == args[i] {
      assert s[end + (|space| + 1 + i)] == p[|space| + 1 + i] == args[i];
    }
    SkipsTo(s, end, n);
    MatchedCloses(s, n, args, j);
  }

  lemma {:induction false} PartsAt(a: string, t: string, p: string, rest: string, s: string)
    requires s == a + (t + (p + rest))
    ensures OccursAt(s, t, |a|) && OccursAt(s, p, |a| + |t|) && s[|a| + |t| + |p|..] == rest
  {
  }

  lemma {:induction false} AheadIs(s: string, from: nat, rest: string, space: string, c: char, b: string)
    requires from <= |s| && s[from..] == rest == space + ([c] + b) && Blank(space) && !AsciiSpace(c)
    ensures SkipSpaces(s, from) == from + |space| < |s| && s[from + |space|] == c
  {
    forall i | from <= i < from + |space| ensures AsciiSpace(s[i]) { assert s[i] == rest[i - from] == space[i - from]; }
    assert s[from + |space|] == rest[|space|] == c;
    SkipsTo(s, from, from + |space|);
  }

  /** A token at |a| with parameters and then c: where they open and close, and where c stands. */
  lemma {:induction false} CallParts(a: string, t: string, space: string, args: string, gap: string, c: char, b: string, s: string,
                                     end: nat, n: nat, j: nat, m: nat)
    requires Blank(space) && Blank(gap) && Matched(args) && !AsciiSpace(c)
    requires s == a + (t + (Parameters(space, args) + (gap + ([c] + b))))
    requires end == |a| + |t| && n == end + |space| && j == n + 1 + |args| && m == j + 1 + |gap|
    ensures OccursAt(s, t, |a|) && OccursAt(s, Parameters(space, args), end)
    ensures SkipSpaces(s, end) == n < |s| && s[n] == '(' && ClosesAt(s, n, j)
    ensures j + 1 <= |s| && SkipSpaces(s, j + 1) == m < |s| && s[m] == c
  {
    var p, rest := Parameters(space, args), gap + ([c] + b);
    assert j + 1 == end + |p|;
    hide Parameters, ClosesAt, Matched, Blank, OccursAt;
    PartsAt(a, t, p, rest, s);
    ParametersAt(s, end, space, args, n, j);
    AheadIs(s, j + 1, rest, gap, c, b);
  }

  /** A token with parameters and then a brace or a colon is a method declaration. */
  lemma {:induction false} MethodIsNoUse(a: string, t: string, space: string, args: string, gap: string, c: char, b: string, s: string)
    requires '.' !in t && Blank(space) && Blank(gap) && Matched(args) && (c == '{' || c == ':')
    requires s == a + (t + (Parameters(space, args) + (gap + ([c] + b))))
    ensures !Use(s, t, |a|)
  {
    var end := |a| + |t|;
    var n, j := end + |space|, end + |space| + 1 + |args|;
    hide Parameters, ClosesAt, Matched, Blank;
    CallParts(a, t, space, args, gap, c, b, s, end, n, j, j + 1 + |gap|);
    assert DeclarationAt(s, j + 1);
  }

  predicate WordChar(c: char) { c == '_' || '0' <= c <= '9' || 'a' <= c <= 'z' || 'A' <= c <= 'Z' }

  /** A token next to a letter, a digit or an underscore is part of a longer word. */
  lemma {:induction false} PartOfWord(a: string, c: char, t: string, b: string)
    requires WordChar(c)
    ensures !Use(a + ([c] + (t + b)), t, |a| + 1) && !Use(a + (t + ([c] + b)), t, |a|)
  {
    assert (a + ([c] + (t + b)))[|a|] == c;
    assert (a + (t + ([c] + b)))[|a| + |t|] == c;
  }

  // Names that are uses.

  /** Nothing before position i makes what follows a member or a part of a word. */
  predicate FreeBefore(s: string, i: nat, j: nat)
    requires j <= i <= |s|
  {
    && (i == 0 || !IsIdentChar(s[i - 1])) && (forall k :: j <= k < i ==> AsciiSpace(s[k]))
    && (j == 0 || (s[j - 1] != '.' && !AsciiSpace(s[j - 1])))
  }

  lemma {:induction false} NoDotBefore(s: string, i: nat, j: nat)
    requires j <= i <= |s| && FreeBefore(s, i, j)
    ensures !AfterDot(s, i)
  {
    NoDotFrom(s, i, j);
  }

  lemma {:induction false} NoDotFrom(s: string, i: nat, j: nat)
    requires j <= i <= |s| && (forall k :: j <= k < i ==> AsciiSpace(s[k]))
    requires j == 0 || (s[j - 1] != '.' && !AsciiSpace(s[j - 1]))
    ensures !AfterDot(s, i)
    decreases i
  {
    if j < i { NoDotFrom(s, i - 1, j); }
  }

  /** A word of its own with neither a colon nor a parenthesis behind it is a use. */
  lemma {:induction false} WordIsUse(s: string, t: string, i: nat, j: nat, n: nat)
    requires OccursAt(s, t, i) && j <= i && FreeBefore(s, i, j)
    requires i + |t| <= n <= |s| && (forall k :: i + |t| <= k < n ==> AsciiSpace(s[k]))
    requires i + |t| == |s| || !IsIdentChar(s[i + |t|])
    requires n == |s| || (!AsciiSpace(s[n]) && s[n] != ':' && s[n] != '(')
    ensures Use(s, t, i)
  {
    NoDotBefore(s, i, j);
    SkipsTo(s, i + |t|, n);
  }

  /** So is a call: parameters with neither a brace nor a colon behind them. */
  lemma {:induction false} CallIsUse(a: string, t: string, space: string, args: string, gap: string, c: char, b: string, s: string, j: nat)
    requires s == a + (t + (Parameters(space, args) + (gap + ([c] + b))))
    requires j <= |a| && FreeBefore(s, |a|, j)
    requires Blank(space) && Blank(gap) && Matched(args) && !AsciiSpace(c) && c != '{' && c != ':'
    ensures Use(s, t, |a|)
  {
    var end := |a| + |t|;
    var n, k := end + |space|, end + |space| + 1 + |args|;
    hide Parameters, ClosesAt, Matched, Blank, OccursAt;
    CallParts(a, t, space, args, gap, c, b, s, end, n, k, k + 1 + |gap|);
    NoDotBefore(s, |a|, j);
    forall m | ClosesAt(s, n, m) ensures m == k { ClosesOnce(s, n, m, k); }
    assert !DeclarationAt(s, k + 1);
    BoundedBehind(s, end, space, args);
  }

  lemma {:induction false} BoundedBehind(s: string, end: nat, space: string, args: string)
    requires OccursAt(s, Parameters(space, args), end) && Blank(space)
    ensures end < |s| && !IsIdentChar(s[end])
  {
    var p := Parameters(space, args);
    assert s[end + 0] == p[0];
    if space != "" { assert p[0] == space[0]; }
  }

  // Declared names.

  const FORMS: seq<string> := ["let ", "const ", "function ", "class ", "import { ", "import * as "]

  /** The text declares the name in form k. */
  predicate DeclaredAs(s: string, a: string, k: nat, name: string, b: string)
  {
    k < 6 && s == a + ((FORMS[k] + name) + b)
  }

  ghost predicate Declared(s: string, name: string)
  {
    exists a: string, k: nat, b: string :: DeclaredAs(s, a, k, name, b)
  }

  lemma {:induction false} ContainsParts(s: string, t: string)
    requires Contains(s, t)
    ensures exists a: string, b: string :: s == a + (t + b)
  {
    var i := Find(s, t, 0);
    assert s[i..i + |t|] == t;
    assert s == s[..i] + (t + s[i + |t|..]);
  }

  lemma {:induction false} PartsContain(a: string, t: string, b: string, s: string)
    requires s == a + (t + b)
    ensures Contains(s, t)
  {
    assert OccursAt(s, t, |a|);
    if Find(s, t, 0) < 0 { FindFirst(s, t, 0, |a|); }
  }

  /** Shadowing is decided by these six forms, anywhere in the text. */
  lemma {:induction false} ShadowedExactly(s: string, name: string)
    ensures Shadowed(s, name) <==> Declared(s, name)
  {
    if Declared(s, name) {
      var a: string, k: nat, b: string :| DeclaredAs(s, a, k, name, b);
      PartsContain(a, FORMS[k] + name, b, s);
    }
    if Shadowed(s, name) {
      var k: nat := if Contains(s, "let " + name) then 0 else if Contains(s, "const " + name) then 1
                    else if Contains(s, "function " + name) then 2 else if Contains(s, "class " + name) then 3
                    else if Contains(s, "import { " + name) then 4 else 5;
      assert Contains(s, FORMS[k] + name);
      ContainsParts(s, FORMS[k] + name);
      var a: string, b: string :| s == a + ((FORMS[k] + name) + b);
      assert DeclaredAs(s, a, k, name, b);
    }
  }

  /** A longer name declared so shadows the symbol, too. */
  lemma {:induction false} LongerNameShadows(a: string, k: nat, name: string, more: string, b: string)
    requires k < 6
    ensures Shadowed(a + ((FORMS[k] + name) + (more + b)), name)
  {
    var s := a + ((FORMS[k] + name) + (more + b));
    assert DeclaredAs(s, a, k, name, more + b);
    ShadowedExactly(s, name);
  }

  /** The root of a symbol is what stands before its first dot, or all of it. */
  lemma {:induction false} RootExactly(symbol: string)
    ensures '.' !in RootSymbol(symbol) && RootSymbol(symbol) <= symbol
    ensures RootSymbol(symbol) == symbol || symbol[|RootSymbol(symbol)|] == '.'
  {
    if symbol != "" && symbol[0] != '.' { RootExactly(symbol[1..]); }
  }

  /** The search reports no symbol whose root the code declares. */
  lemma {:induction false} DeclaredUnreported(source: string, symbols: seq<string>, r: Match)
    requires Reports(source, symbols, r) && r.Match?
    ensures !Declared(Mask(source), RootSymbol(r.symbol))
  {
    var offset, which :| ReportAt(source, symbols, r, offset, which);
    ShadowedExactly(Mask(source), RootSymbol(r.symbol));
  }

  /** And it reports something whenever a use of an undeclared symbol is left. */
  lemma {:induction false} UseReported(source: string, symbols: seq<string>, r: Match, n: nat, i: int)
    requires Reports(source, symbols, r) && n < |symbols|
    requires Use(Mask(source), symbols[n], i) && !Declared(Mask(source), RootSymbol(symbols[n]))
    ensures r.Match?
  {
    ShadowedExactly(Mask(source), RootSymbol(symbols[n]));
    assert Offence(Mask(source), symbols[n], i);
    if r.NoMatch? {
      NoneLeft(Mask(source), symbols, n, i);
      assert false;
    }
  }

  lemma {:induction false} NoneLeft(masked: string, symbols: seq<string>, n: nat, i: int)
    requires n < |symbols| && Best(masked, symbols, |symbols|, -1, -1) && i <= |masked|
    ensures !Offence(masked, symbols[n], i)
  {
    assert NoneBefore(masked, symbols[n], Limit(masked, -1));
  }
}
