/** Strict mode's check that a source uses no symbol that only node-compat mode offers. */
module Precheck {

  import opened Text
  import opened Masking
  import opened Scanning

  datatype Match = NoMatch | Match(symbol: string, line: nat)

  // Symbols are tokens for which the search is complete.

  predicate Searchable(t: string)
  {
    t != "" && SelfApart(t) && '\n' !in t && ' ' !in t
  }

  predicate Word(t: string)
  {
    t != "" && forall i :: 0 <= i < |t| ==> IsIdentChar(t[i])
  }

  predicate Dotted(t: string, k: nat)
  {
    && k + 1 < |t| && t[k] == '.' && t[k + 1] != t[0]
    && forall i :: 0 <= i < |t| && i != k ==> IsIdentChar(t[i])
  }

  lemma {:induction false} WordSearchable(t: string)
    requires Word(t)
    ensures Searchable(t)
  {
  }

  lemma {:induction false} DottedSearchable(t: string, k: nat)
    requires Dotted(t, k)
    ensures Searchable(t)
  {
    forall i | 0 <= i < |t| - 1 && !IsIdentChar(t[i]) ensures !(t[i + 1..] <= t) {
      assert t[i + 1..][0] == t[k + 1];
    }
  }

  predicate AllSearchable(symbols: seq<string>)
  {
    forall n :: 0 <= n < |symbols| ==> Searchable(symbols[n])
  }

  predicate AllWords(symbols: seq<string>)
  {
    forall n :: 0 <= n < |symbols| ==> Word(symbols[n])
  }

  // Shadowing.

  /** The part of a symbol before its first dot. */
  function RootSymbol(symbol: string): string
  {
    if symbol == "" || symbol[0] == '.' then "" else [symbol[0]] + RootSymbol(symbol[1..])
  }

  /** The source declares the name in one of the six recognised ways. */
  predicate Shadowed(source: string, name: string)
  {
    || Contains(source, "let " + name) || Contains(source, "const " + name)
    || Contains(source, "function " + name) || Contains(source, "class " + name)
    || Contains(source, "import { " + name) || Contains(source, "import * as " + name)
  }

  // The search for the first offending use.

  /** An offence: a use of an unshadowed symbol in the code part of the source. */
  ghost predicate Offence(masked: string, symbol: string, i: int)
  {
    !Shadowed(masked, RootSymbol(symbol)) && Use(masked, symbol, i)
  }

  /** No offence of the symbol starts before `limit`. */
  ghost predicate NoneBefore(masked: string, symbol: string, limit: int)
  {
    forall i :: i < limit ==> !Offence(masked, symbol, i)
  }

  function LineBreaks(s: string): nat
  {
    if s == "" then 0 else LineBreaks(s[..|s| - 1]) + if s[|s| - 1] == '\n' then 1 else 0
  }

  /**
   * `best` is the least offset of an offence among the first n symbols, and symbols[which]
   * the first of them with an offence there; negative when there is none.
   */
  ghost predicate Best(masked: string, symbols: seq<string>, n: nat, best: int, which: int)
    requires n <= |symbols|
  {
    && (best >= 0 ==> best <= |masked| && 0 <= which < n && Offence(masked, symbols[which], best))
    && (forall k :: 0 <= k < n ==> NoneBefore(masked, symbols[k], Limit(masked, best)))
    && (best >= 0 ==> forall k :: 0 <= k < which ==> NoneBefore(masked, symbols[k], best + 1))
  }

  function Limit(masked: string, best: int): int { if best < 0 then |masked| + 1 else best }

  lemma {:induction false} SearchExact(masked: string, symbol: string)
    requires Searchable(symbol) && !Shadowed(masked, RootSymbol(symbol))
    ensures ScanFrom(masked, symbol, 0) >= 0 ==> Offence(masked, symbol, ScanFrom(masked, symbol, 0))
    ensures NoneBefore(masked, symbol, Limit(masked, ScanFrom(masked, symbol, 0)))
  {
    var r := ScanFrom(masked, symbol, 0);
    ScanLeast(masked, symbol, 0);
    forall i | i < (if r < 0 then |masked| + 1 else r) ensures !Offence(masked, symbol, i) {
      if i >= 0 { assert !Use(masked, symbol, i); }
    }
  }

  /** One more symbol: a search result at `found`, or none. */
  lemma {:induction false} BestNext(masked: string, symbols: seq<string>, n: nat, best: int, which: int, found: int)
    requires n < |symbols| && Best(masked, symbols, n, best, which) && found <= |masked|
    requires found >= 0 ==> Offence(masked, symbols[n], found)
    requires NoneBefore(masked, symbols[n], Limit(masked, found))
    ensures 0 <= found && (best < 0 || found < best) ==> Best(masked, symbols, n + 1, found, n)
    ensures found < 0 || 0 <= best <= found ==> Best(masked, symbols, n + 1, best, which)
  {
  }

  /** The report names the line of the least offence and the first symbol that has it. */
  ghost predicate ReportAt(source: string, symbols: seq<string>, r: Match, offset: int, which: int)
  {
    && r.Match? && 0 <= offset <= |source| && 0 <= which < |symbols| && r.symbol == symbols[which]
    && Best(Mask(source), symbols, |symbols|, offset, which) && r.line == LineBreaks(source[..offset]) + 1
  }

  /** What the search reports: nothing exactly when there is no offence. */
  ghost predicate Reports(source: string, symbols: seq<string>, r: Match)
  {
    if r.NoMatch? then Best(Mask(source), symbols, |symbols|, -1, -1)
    else exists offset, which :: ReportAt(source, symbols, r, offset, which)
  }

  /** The search over all symbols. */
  method FindFirstUsage(source: string, symbols: seq<string>) returns (r: Match)
    requires AllSearchable(symbols)
    ensures Reports(source, symbols, r)
  {
    var masked := MaskNonCodeRegions(source);
    MaskKeeps(source);
    r := NoMatch;
    ghost var offset, which := -1, -1;
    var best := |source| + 1;
    var n := 0;
    while n < |symbols|
      invariant n <= |symbols| && masked == Mask(source) && |masked| == |source|
      invariant Best(masked, symbols, n, offset, which)
      invariant if r.NoMatch? then offset == which == -1 else 0 <= offset <= |source| && 0 <= which < n
      invariant best == if r.NoMatch? then |source| + 1 else offset
      invariant r.Match? ==> r.symbol == symbols[which] && r.line == LineBreaks(source[..offset]) + 1
    {
      var symbol := symbols[n];
      var found := -1;
      if !Shadowed(masked, RootSymbol(symbol)) {
        found := FindTokenOccurrence(masked, symbol);
        SearchExact(masked, symbol);
      }
      BestNext(masked, symbols, n, offset, which, found);
      if 0 <= found < best {
        best := found;
        var line := CountLineBreaks(source[..found]);
        r := Match(symbol, line + 1);
        offset, which := found, n;
      }
      n := n + 1;
    }
    if r.Match? { assert ReportAt(source, symbols, r, offset, which); }
  }

  method CountLineBreaks(s: string) returns (n: nat)
    ensures n == LineBreaks(s)
  {
    n := 0;
    var i := 0;
    while i < |s|
      invariant i <= |s| && n == LineBreaks(s[..i])
    {
      assert s[..i + 1][..i] == s[..i];
      if s[i] == '\n' {
        n := n + 1;
      }
      i := i + 1;
    }
    assert s[..i] == s;
  }
}
