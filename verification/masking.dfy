/** Blanking out strings and comments so that only code is scanned. */
module Masking {

  // The lexer's states; a quoted state remembers its quote and a pending backslash.
  datatype State = Code | Quote(quote: char, escaped: bool) | LineComment | BlockComment

  predicate IsQuote(c: char) { c == '\'' || c == '"' || c == '`' }

  predicate Opener(s: string, i: nat)
  {
    i + 1 < |s| && s[i] == '/' && (s[i + 1] == '/' || s[i + 1] == '*')
  }

  function BlankChar(c: char): char { if c == '\n' then '\n' else ' ' }

  /** How many characters the lexer takes in this state at position i. */
  function Taken(s: string, i: nat, state: State): nat
    requires i < |s|
  {
    match state
    case Code => if Opener(s, i) then 2 else 1
    case BlockComment => if s[i] == '*' && i + 1 < |s| && s[i + 1] == '/' then 2 else 1
    case _ => 1
  }

  function NextState(s: string, i: nat, state: State): State
    requires i < |s|
  {
    match state
    case Code =>
      if Opener(s, i) then (if s[i + 1] == '/' then LineComment else BlockComment)
      else if IsQuote(s[i]) then Quote(s[i], false)
      else Code
    case Quote(q, escaped) =>
      if s[i] == '\n' || escaped then Quote(q, false)
      else if s[i] == '\\' then Quote(q, true)
      else if s[i] == q then Code
      else Quote(q, false)
    case LineComment => if s[i] == '\n' then Code else LineComment
    case BlockComment => if Taken(s, i, state) == 2 then Code else BlockComment
  }

  function Output(s: string, i: nat, state: State): string
    requires i < |s|
  {
    if Taken(s, i, state) == 2 then "  "
    else if state.Code? && !IsQuote(s[i]) then [s[i]]
    else [BlankChar(s[i])]
  }

  /** What the lexer still outputs when it is at position i. */
  function MaskFrom(s: string, i: nat, state: State): string
    requires i <= |s|
    decreases |s| - i
  {
    if i == |s| then ""
    else Output(s, i, state) + MaskFrom(s, i + Taken(s, i, state), NextState(s, i, state))
  }

  function Mask(s: string): string { MaskFrom(s, 0, Code) }

  /** One turn of the loop appends its output to what was written before. */
  lemma {:induction false} MaskTurn(s: string, i: nat, state: State, before: string)
    requires i < |s|
    ensures before + MaskFrom(s, i, state)
         == before + Output(s, i, state) + MaskFrom(s, i + Taken(s, i, state), NextState(s, i, state))
  {
  }

  datatype Mode = InCode | InSingle | InDouble | InBacktick | InLine | InBlock

  predicate Quoted(mode: Mode) { mode.InSingle? || mode.InDouble? || mode.InBacktick? }

  function StateOf(mode: Mode, escaped: bool): State
  {
    match mode
    case InCode => Code
    case InSingle => Quote('\'', escaped)
    case InDouble => Quote('"', escaped)
    case InBacktick => Quote('`', escaped)
    case InLine => LineComment
    case InBlock => BlockComment
  }

  method MaskNonCodeRegions(source: string) returns (out: string)
    ensures out == Mask(source)
  {
    out := "";
    var i, mode, escaped := 0, InCode, false;
    while i < |source|
      invariant i <= |source| && (Quoted(mode) || !escaped)
      invariant out + MaskFrom(source, i, StateOf(mode, escaped)) == Mask(source)
    {
      MaskTurn(source, i, StateOf(mode, escaped), out);
      var written, taken;
      written, taken, mode, escaped := Turn(source, i, mode, escaped);
      out := out + written;
      i := i + taken;
    }
    assert out + "" == out;
  }

  /** One turn: what is written, how far to move, and the mode and escape flag after it. */
  method Turn(source: string, i: nat, mode: Mode, escaped: bool)
    returns (written: string, taken: nat, mode': Mode, escaped': bool)
    requires i < |source| && (Quoted(mode) || !escaped)
    ensures written == Output(source, i, StateOf(mode, escaped)) && taken == Taken(source, i, StateOf(mode, escaped))
    ensures StateOf(mode', escaped') == NextState(source, i, StateOf(mode, escaped))
    ensures Quoted(mode') || !escaped'
    ensures 0 < taken <= |source| - i
  {
    var c := source[i];
    mode', escaped' := mode, escaped;
    match mode
    case InCode =>
      if c == '/' && i + 1 < |source| {
        if source[i + 1] == '/' { return "  ", 2, InLine, escaped; }
        if source[i + 1] == '*' { return "  ", 2, InBlock, escaped; }
      }
      match c {
        case '\'' => return " ", 1, InSingle, escaped;
        case '"' => return " ", 1, InDouble, escaped;
        case '`' => return " ", 1, InBacktick, escaped;
        case _ => return [c], 1, InCode, escaped;
      }
    case InLine =>
      if c == '\n' { return "\n", 1, InCode, escaped; }
      return " ", 1, InLine, escaped;
    case InBlock =>
      if c == '*' && i + 1 < |source| && source[i + 1] == '/' { return "  ", 2, InCode, escaped; }
      return [BlankChar(c)], 1, InBlock, escaped;
    case _ =>
      var quote := if mode == InSingle then '\'' else if mode == InDouble then '"' else '`';
      if c == '\n' { return "\n", 1, mode, false; }
      if escaped { return " ", 1, mode, false; }
      if c == '\\' { return " ", 1, mode, true; }
      return " ", 1, if c == quote then InCode else mode, false;
  }

  // What masking keeps.

  /** Position by position, from i on, the output is the source or a blank. */
  predicate Blanked(s: string, i: nat, out: string)
    requires i <= |s|
  {
    && |out| == |s| - i
    && forall k :: 0 <= k < |out| ==> (out[k] == s[i + k] || out[k] == ' ') && (s[i + k] == '\n' <==> out[k] == '\n')
  }

  lemma {:induction false} MaskBlanks(s: string, i: nat, state: State)
    requires i <= |s|
    ensures Blanked(s, i, MaskFrom(s, i, state))
    decreases |s| - i
  {
    if i < |s| {
      var n := Taken(s, i, state);
      MaskBlanks(s, i + n, NextState(s, i, state));
      OutputBlanks(s, i, state);
      BlankedJoin(s, i, n, Output(s, i, state), MaskFrom(s, i + n, NextState(s, i, state)));
    }
  }

  lemma {:induction false} OutputBlanks(s: string, i: nat, state: State)
    requires i < |s|
    ensures |Output(s, i, state)| == Taken(s, i, state) <= |s| - i
    ensures forall k :: 0 <= k < Taken(s, i, state) ==>
              && (Output(s, i, state)[k] == s[i + k] || Output(s, i, state)[k] == ' ')
              && (s[i + k] == '\n' <==> Output(s, i, state)[k] == '\n')
  {
  }

  lemma {:induction false} BlankedJoin(s: string, i: nat, n: nat, a: string, b: string)
    requires i + n <= |s| && |a| == n && Blanked(s, i + n, b)
    requires forall k :: 0 <= k < n ==> (a[k] == s[i + k] || a[k] == ' ') && (s[i + k] == '\n' <==> a[k] == '\n')
    ensures Blanked(s, i, a + b)
  {
    forall k | 0 <= k < |a + b|
      ensures ((a + b)[k] == s[i + k] || (a + b)[k] == ' ') && (s[i + k] == '\n' <==> (a + b)[k] == '\n')
    {
      if k >= n { assert (a + b)[k] == b[k - n] && s[i + n + (k - n)] == s[i + k]; }
    }
  }

  /** No quote and no comment opener is left. */
  predicate Clean(s: string)
  {
    forall k :: 0 <= k < |s| ==> !IsQuote(s[k]) && !Opener(s, k)
  }

  lemma {:induction false} MaskCleans(s: string, i: nat, state: State)
    requires i <= |s|
    ensures Clean(MaskFrom(s, i, state))
    decreases |s| - i
  {
    if i < |s| {
      var n := Taken(s, i, state);
      var out := Output(s, i, state);
      var rest := MaskFrom(s, i + n, NextState(s, i, state));
      MaskCleans(s, i + n, NextState(s, i, state));
      MaskBlanks(s, i + n, NextState(s, i, state));
      assert out[0] == '/' ==> n == 1 && !Opener(s, i);
      forall k | 0 <= k < |out + rest|
        ensures !IsQuote((out + rest)[k]) && !Opener(out + rest, k)
      {
        if k >= n {
          assert !Opener(rest, k - n);
        } else if k == n - 1 && rest != "" {
          assert rest[0] == s[i + n] || rest[0] == ' ';
        }
      }
    }
  }

  lemma {:induction false} CleanUnmasked(s: string, i: nat)
    requires Clean(s) && i <= |s|
    ensures MaskFrom(s, i, Code) == s[i..]
    decreases |s| - i
  {
    if i < |s| {
      CleanUnmasked(s, i + 1);
      assert s[i..] == [s[i]] + s[i + 1..];
    }
  }

  /** Length and line breaks stay, every character stays or is blanked, and no more is left to mask. */
  lemma {:induction false} MaskKeeps(s: string)
    ensures Blanked(s, 0, Mask(s)) && Clean(Mask(s)) && Mask(Mask(s)) == Mask(s)
  {
    MaskBlanks(s, 0, Code);
    MaskCleans(s, 0, Code);
    CleanUnmasked(Mask(s), 0);
    assert Mask(s)[0..] == Mask(s);
  }
}
