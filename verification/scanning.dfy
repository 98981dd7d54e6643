/** Finding the first use of a symbol that strict mode does not allow. */
module Scanning {

  import opened Text

  predicate IsIdentChar(c: char)
  {
    'a' <= c <= 'z' || 'A' <= c <= 'Z' || '0' <= c <= '9' || c == '_'
  }

  predicate AsciiSpace(c: char)
  {
    c == ' ' || c == '\t' || c == '\n' || c == '\U{0c}' || c == '\r'
  }

  // Word boundaries and context.

  predicate WordBounded(s: string, i: int, end: int)
    requires 0 <= i <= end <= |s|
  {
    (i == 0 || !IsIdentChar(s[i - 1])) && (end == |s| || !IsIdentChar(s[end]))
  }

  /** The first position from `from` on that does not hold white space. */
  function SkipSpaces(s: string, from: nat): (n: nat)
    requires from <= |s|
    ensures from <= n <= |s|
    decreases |s| - from
  {
    if from < |s| && AsciiSpace(s[from]) then SkipSpaces(s, from + 1) else from
  }

  /** The nearest character before i that is not white space is a dot. */
  predicate AfterDot(s: string, i: nat)
    requires i <= |s|
  {
    i > 0 && (s[i - 1] == '.' || (AsciiSpace(s[i - 1]) && AfterDot(s, i - 1)))
  }

  function Balance(s: string, from: nat, to: nat): int
    requires from <= to <= |s|
  {
    if from == to then 0
    else Balance(s, from, to - 1) + if s[to - 1] == '(' then 1 else if s[to - 1] == ')' then -1 else 0
  }

  /** The parenthesis opened at `open` is closed at j. */
  predicate ClosesAt(s: string, open: nat, j: int)
  {
    && open <= j < |s| && Balance(s, open, j + 1) == 0
    && forall k :: open < k <= j ==> Balance(s, open, k) > 0
  }

  predicate DeclarationAt(s: string, i: nat)
    requires i <= |s|
  {
    var a := SkipSpaces(s, i);
    a < |s| && (s[a] == ':' || s[a] == '{')
  }

  /** What stands at `end` makes the name before it a property key or a method declaration. */
  ghost predicate MemberContext(s: string, end: nat)
    requires end <= |s|
  {
    var n := SkipSpaces(s, end);
    n < |s| && (s[n] == ':' || (s[n] == '(' && exists j :: ClosesAt(s, n, j) && DeclarationAt(s, j + 1)))
  }

  /** A use of the token as a word of its own, and not as a member or a declaration. */
  ghost predicate Use(s: string, t: string, i: int)
  {
    && OccursAt(s, t, i) && WordBounded(s, i, i + |t|)
    && ('.' in t || (!AfterDot(s, i) && !MemberContext(s, i + |t|)))
  }

  method SkipSpace(s: string, from: nat) returns (n: nat)
    requires from <= |s|
    ensures n == SkipSpaces(s, from)
  {
    n := from;
    while n < |s| && AsciiSpace(s[n])
      invariant n <= |s| && SkipSpaces(s, n) == SkipSpaces(s, from)
    {
      n := n + 1;
    }
  }

  lemma {:induction false} NeverCloses(s: string, open: nat)
    requires open <= |s| && forall k :: open < k <= |s| ==> Balance(s, open, k) > 0
    ensures forall k :: !ClosesAt(s, open, k)
  {
  }

  /** The position of the parenthesis that closes the one at `open`, if there is one. */
  method FindClose(s: string, open: nat) returns (found: bool, j: nat)
    requires open < |s| && s[open] == '('
    ensures found ==> ClosesAt(s, open, j)
    ensures !found ==> forall k :: !ClosesAt(s, open, k)
  {
    var depth := 0;
    j := open;
    while j < |s|
      invariant open <= j <= |s| && depth == Balance(s, open, j)
      invariant j > open ==> depth > 0
      invariant forall k :: open < k <= j ==> Balance(s, open, k) > 0
    {
      if s[j] == '(' {
        depth := depth + 1;
      } else if s[j] == ')' {
        depth := if depth > 0 then depth - 1 else 0;
        if depth == 0 {
          return true, j;
        }
      }
      j := j + 1;
    }
    NeverCloses(s, open);
    return false, 0;
  }

  lemma {:induction false} ClosesOnce(s: string, open: nat, a: int, b: int)
    requires ClosesAt(s, open, a) && ClosesAt(s, open, b)
    ensures a == b
  {
  }

  method IsMemberOrMethodDeclarationContext(s: string, end: nat) returns (r: bool)
    requires end <= |s|
    ensures r <==> MemberContext(s, end)
  {
    var n := SkipSpace(s, end);
    if n == |s| {
      return false;
    }
    if s[n] == ':' {
      return true;
    }
    if s[n] != '(' {
      return false;
    }
    var found, j := FindClose(s, n);
    if !found {
      return false;
    }
    forall k | ClosesAt(s, n, k) ensures k == j { ClosesOnce(s, n, k, j); }
    var a := SkipSpace(s, j + 1);
    r := a < |s| && (s[a] == ':' || s[a] == '{');
    assert r <==> DeclarationAt(s, j + 1);
  }

  method PrecededByDot(s: string, i: nat) returns (r: bool)
    requires i <= |s|
    ensures r <==> AfterDot(s, i)
  {
    var k := i;
    while k > 0 && AsciiSpace(s[k - 1])
      invariant 0 <= k <= i && AfterDot(s, k) == AfterDot(s, i)
    {
      k := k - 1;
    }
    return k > 0 && s[k - 1] == '.';
  }

  /** Whether an occurrence at i is a use. */
  method IsUse(s: string, t: string, i: nat) returns (r: bool)
    requires OccursAt(s, t, i)
    ensures r <==> Use(s, t, i)
  {
    var left := i == 0 || !IsIdentChar(s[i - 1]);
    var right := i + |t| >= |s| || !IsIdentChar(s[i + |t|]);
    if !(left && right) {
      return false;
    }
    if '.' in t {
      return true;
    }
    var member := PrecededByDot(s, i);
    if member {
      return false;
    }
    member := IsMemberOrMethodDeclarationContext(s, i + |t|);
    return !member;
  }

  // The scan over non-overlapping occurrences.

  /** The first use among the occurrences that a search without overlaps visits from pos on. */
  ghost function ScanFrom(s: string, t: string, pos: nat): int
    requires t != ""
    decreases |s| - pos
  {
    var i := Find(s, t, pos);
    if i < 0 then -1 else if Use(s, t, i) then i else ScanFrom(s, t, i + |t|)
  }

  method FindTokenOccurrence(s: string, t: string) returns (r: int)
    requires t != ""
    ensures r == ScanFrom(s, t, 0)
  {
    var pos := 0;
    r := Find(s, t, pos);
    while r >= 0
      invariant r == Find(s, t, pos)
      invariant ScanFrom(s, t, 0) == ScanFrom(s, t, pos)
      decreases |s| - pos
    {
      var use := IsUse(s, t, r);
      if use {
        return;
      }
      pos := r + |t|;
      r := Find(s, t, pos);
    }
    r := -1;
  }

  /** After a character that is not part of a word, t never starts over within itself. */
  predicate SelfApart(t: string)
  {
    forall k :: 0 <= k < |t| - 1 && !IsIdentChar(t[k]) ==> !(t[k + 1..] <= t)
  }

  lemma {:induction false} Overlap(s: string, t: string, i: int, j: int)
    requires OccursAt(s, t, i) && OccursAt(s, t, j) && i < j < i + |t|
    ensures t[j - i..] <= t && s[j - 1] == t[j - 1 - i]
  {
    var d := j - i;
    assert s[i + (d - 1)] == t[d - 1];
    forall k | 0 <= k < |t| - d ensures t[d..][k] == t[k] {
      assert s[i + (d + k)] == t[d + k] && s[j + k] == t[k];
    }
  }

  lemma {:induction false} NoUseInside(s: string, t: string, i: int, j: int)
    requires SelfApart(t) && OccursAt(s, t, i) && i < j < i + |t|
    ensures !Use(s, t, j)
  {
    if Use(s, t, j) {
      Overlap(s, t, i, j);
      assert false;
    }
  }

  /** No use of t starts in s from lo up to hi. */
  ghost predicate NoUse(s: string, t: string, lo: int, hi: int)
  {
    forall j :: lo <= j < hi ==> !Use(s, t, j)
  }

  /** r is the first use of t from pos on, or negative when there is none. */
  ghost predicate FirstUse(s: string, t: string, pos: nat, r: int)
  {
    if r < 0 then NoUse(s, t, pos, |s| + 1) else pos <= r && Use(s, t, r) && NoUse(s, t, pos, r)
  }

  /** For such a token the search misses no use: it finds the first there is. */
  lemma {:induction false} ScanLeast(s: string, t: string, pos: nat)
    requires t != "" && SelfApart(t)
    ensures FirstUse(s, t, pos, ScanFrom(s, t, pos))
    decreases |s| - pos
  {
    hide SelfApart, Use, FirstUse, Find;
    var i := Find(s, t, pos);
    if i < 0 || Use(s, t, i) {
      FirstUseFound(s, t, pos, i);
    } else {
      ScanLeast(s, t, i + |t|);
      FirstUseLater(s, t, pos, i, ScanFrom(s, t, i + |t|));
    }
  }

  lemma {:induction false} FirstUseFound(s: string, t: string, pos: nat, i: int)
    requires i == Find(s, t, pos) && (i < 0 || Use(s, t, i))
    ensures FirstUse(s, t, pos, if i < 0 then -1 else i)
  {
    BeforeFirst(s, t, pos, if i < 0 then |s| + 1 else i);
  }

  lemma {:induction false} FirstUseLater(s: string, t: string, pos: nat, i: int, r: int)
    requires SelfApart(t) && i == Find(s, t, pos) >= 0 && !Use(s, t, i)
    requires FirstUse(s, t, i + |t|, r)
    ensures FirstUse(s, t, pos, r)
  {
    SkippedHasNoUse(s, t, pos, i);
    NoUseJoin(s, t, pos, i + |t|, if r < 0 then |s| + 1 else r);
  }

  lemma {:induction false} BeforeFirst(s: string, t: string, pos: nat, hi: int)
    requires Find(s, t, pos) < 0 || hi <= Find(s, t, pos)
    ensures NoUse(s, t, pos, hi)
  {
    forall j | pos <= j < hi ensures !Use(s, t, j) {
      FindFirst(s, t, pos, j);
    }
  }

  lemma {:induction false} NoUseJoin(s: string, t: string, lo: int, mid: int, hi: int)
    requires NoUse(s, t, lo, mid) && NoUse(s, t, mid, hi)
    ensures NoUse(s, t, lo, hi)
  {
  }

  lemma {:induction false} SkippedHasNoUse(s: string, t: string, pos: nat, i: int)
    requires SelfApart(t) && i == Find(s, t, pos) >= 0 && !Use(s, t, i)
    ensures NoUse(s, t, pos, i + |t|)
  {
    BeforeFirst(s, t, pos, i);
    forall j | i <= j < i + |t| ensures !Use(s, t, j) {
      if i < j { NoUseInside(s, t, i, j); }
    }
    NoUseJoin(s, t, pos, i, i + |t|);
  }

  /** Every other dotted token has a source where the search overlooks its only use. */
  lemma {:induction false} OverlappingMissed(t: string, k: nat) returns (s: string)
    requires '.' in t && k < |t| - 1 && !IsIdentChar(t[k]) && t[k + 1..] <= t
    ensures Use(s, t, k + 2) && ScanFrom(s, t, 0) == -1
  {
    var n := |t|;
    var tail := t[n - k - 1..];
    s := "x" + t + tail;
    forall x | 0 <= x < n ensures s[1 + x] == t[x] && s[k + 2 + x] == t[x] {
      if x < n - k - 1 {
        assert t[k + 1..][x] == t[x];
      } else {
        assert tail[x - (n - k - 1)] == t[x];
      }
    }
    MissedScan(s, t, k);
  }

  lemma {:induction false} AllSame(s: string, t: string, j: nat)
    requires OccursAt(s, t, 0) && OccursAt(s, t, 1) && j < |t|
    ensures t[j] == s[0]
  {
    assert s[0 + j] == t[j];
    if j > 0 {
      AllSame(s, t, j - 1);
      assert s[1 + (j - 1)] == t[j - 1];
    }
  }

  lemma {:induction false} MissedScan(s: string, t: string, k: nat)
    requires |s| == |t| + k + 2 && k < |t| - 1 && !IsIdentChar(t[k])
    requires s[0] == 'x' && OccursAt(s, t, 1)
    ensures ScanFrom(s, t, 0) == -1
  {
    if OccursAt(s, t, 0) {
      AllSame(s, t, k);
      assert false;
    }
    assert Find(s, t, 0) == Find(s, t, 1) == 1;
    assert !WordBounded(s, 1, 1 + |t|);
    assert Find(s, t, 1 + |t|) < 0;
  }
}
