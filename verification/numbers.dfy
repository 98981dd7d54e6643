/** Unsigned numbers written in base 10 or 16, read as the standard library reads them. */
module Numbers {

  import opened Options

  /** The largest value of a 64-bit unsigned integer. */
  const MAX_U64: nat := 0xFFFF_FFFF_FFFF_FFFF
  const MAX_U16: nat := 0xFFFF

  predicate Base(base: nat) { base == 10 || base == 16 }

  /** The value of a digit, or -1. */
  function Digit(c: char, base: nat): int
  {
    var d := if '0' <= c <= '9' then c as int - '0' as int
             else if 'a' <= c <= 'f' then c as int - 'a' as int + 10
             else if 'A' <= c <= 'F' then c as int - 'A' as int + 10
             else -1;
    if d < base then d else -1
  }

  function Scaled(v: nat, base: nat): nat { if base == 10 then v * 10 else v * 16 }

  function Leading(n: nat, base: nat): (q: nat)
    ensures n > 0 ==> q < n
  {
    if base == 10 then n / 10 else n / 16
  }

  function LastDigit(n: nat, base: nat): (r: nat)
    ensures r < 16
  {
    if base == 10 then n % 10 else n % 16
  }

  /** The value of a run of digits, unless one is no digit or the value exceeds max. */
  function Value(s: string, base: nat, max: nat): Option<nat>
    requires Base(base)
  {
    if s == "" then Some(0)
    else
      match Value(s[..|s| - 1], base, max)
      case None => None
      case Some(v) =>
        var d := Digit(s[|s| - 1], base);
        if d < 0 || Scaled(v, base) + d > max then None else Some(Scaled(v, base) + d)
  }

  /** A number may start with a plus sign and must have a digit. */
  function Parse(s: string, base: nat, max: nat): Option<nat>
    requires Base(base)
  {
    var digits := if s != "" && s[0] == '+' then s[1..] else s;
    if digits == "" then None else Value(digits, base, max)
  }

  function DigitChar(d: nat): char
    requires d < 16
  {
    "0123456789abcdef"[d]
  }

  function Print(n: nat, base: nat): string
    requires Base(base)
  {
    if n < base then [DigitChar(n)] else Print(Leading(n, base), base) + [DigitChar(LastDigit(n, base))]
  }

  predicate IsDigitChar(c: char) { '0' <= c <= '9' || 'a' <= c <= 'f' }

  lemma {:induction false} DigitRead(d: nat, base: nat)
    requires Base(base) && d < base
    ensures Digit(DigitChar(d), base) == d && IsDigitChar(DigitChar(d))
  {
  }

  lemma {:induction false} OneMoreDigit(s: string, c: char, base: nat, max: nat, v: nat)
    requires Base(base) && Value(s, base, max) == Some(v) && Digit(c, base) >= 0 && Scaled(v, base) + Digit(c, base) <= max
    ensures Value(s + [c], base, max) == Some(Scaled(v, base) + Digit(c, base))
  {
    var t := s + [c];
    assert t[..|t| - 1] == s && t[|t| - 1] == c;
  }

  lemma {:induction false} Quotient(n: nat, base: nat, q: nat, r: nat)
    requires Base(base) && q == Leading(n, base) && r == LastDigit(n, base)
    ensures n == Scaled(q, base) + r && q <= n && r < base
  {
  }

  lemma {:induction false} OneDigit(n: nat, base: nat, max: nat)
    requires Base(base) && n < base && n <= max
    ensures Value([DigitChar(n)], base, max) == Some(n)
  {
    hide Digit, DigitChar;
    DigitRead(n, base);
    assert Value("", base, max) == Some(0);
    OneMoreDigit("", DigitChar(n), base, max, 0);
    assert "" + [DigitChar(n)] == [DigitChar(n)];
  }

  lemma {:induction false} ParseBounded(s: string, base: nat, max: nat)
    requires Base(base)
    ensures Parse(s, base, max).Some? ==> Parse(s, base, max).value <= max
  {
  }

  lemma {:induction false} PrintRead(n: nat, base: nat, max: nat)
    requires Base(base) && n <= max
    ensures Value(Print(n, base), base, max) == Some(n)
    decreases n
  {
    hide Value, Digit, DigitChar, LastDigit, Scaled;
    if n < base {
      OneDigit(n, base, max);
    } else {
      var q, r := Leading(n, base), LastDigit(n, base);
      Quotient(n, base, q, r);
      PrintRead(q, base, max);
      DigitRead(r, base);
      OneMoreDigit(Print(q, base), DigitChar(r), base, max, q);
    }
  }

  lemma {:induction false} PrintDigits(n: nat, base: nat)
    requires Base(base)
    ensures Print(n, base) != "" && forall i :: 0 <= i < |Print(n, base)| ==> IsDigitChar(Print(n, base)[i])
    decreases n
  {
    if n < base {
      DigitRead(n, base);
    } else {
      PrintDigits(Leading(n, base), base);
      Quotient(n, base, Leading(n, base), LastDigit(n, base));
      DigitRead(LastDigit(n, base), base);
    }
  }

  /** Reading a printed number gives it back, up to the largest value that fits, and fails above it. */
  lemma {:induction false} PrintParse(n: nat, base: nat, max: nat)
    requires Base(base)
    ensures Parse(Print(n, base), base, max) == if n <= max then Some(n) else None
  {
    PrintDigits(n, base);
    assert Print(n, base)[0] != '+';
    if n <= max { PrintRead(n, base, max); } else { PrintOverflows(n, base, max); }
  }

  lemma {:induction false} LastTooMuch(s: string, c: char, base: nat, max: nat)
    requires Base(base)
    requires match Value(s, base, max) case None => true case Some(v) => Scaled(v, base) + Digit(c, base) > max
    ensures Value(s + [c], base, max) == None
  {
    var t := s + [c];
    assert t[..|t| - 1] == s && t[|t| - 1] == c;
  }

  lemma {:induction false} PrintOverflows(n: nat, base: nat, max: nat)
    requires Base(base) && n > max
    ensures Value(Print(n, base), base, max) == None
    decreases n
  {
    hide Value, Digit, DigitChar, LastDigit, Scaled;
    if n < base {
      DigitRead(n, base);
      EmptyValue(base, max);
      LastTooMuch("", DigitChar(n), base, max);
      assert "" + [DigitChar(n)] == [DigitChar(n)];
    } else {
      var q, r := Leading(n, base), LastDigit(n, base);
      Quotient(n, base, q, r);
      DigitRead(r, base);
      if q <= max { PrintRead(q, base, max); } else { PrintOverflows(q, base, max); }
      LastTooMuch(Print(q, base), DigitChar(r), base, max);
    }
  }

  lemma {:induction false} EmptyValue(base: nat, max: nat)
    requires Base(base)
    ensures Value("", base, max) == Some(0) && Scaled(0, base) == 0
  {
  }

  /** Hexadecimal digits may be upper-case, and a plus sign may stand before the first. */
  lemma {:induction false} OtherSpellings(c: char, s: string, base: nat, max: nat)
    requires Base(base)
    ensures 'a' <= c <= 'f' ==> Digit(c, 16) == Digit((c as int - 32) as char, 16) == 10 + (c as int - 'a' as int)
    ensures 'a' <= c <= 'f' ==> Digit(c, 10) == -1
    ensures s != "" && s[0] != '+' ==> Parse("+" + s, base, max) == Parse(s, base, max)
    ensures Parse("", base, max) == None
  {
    assert ("+" + s)[1..] == s;
  }
}
