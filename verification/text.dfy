/** Small string operations shared by the text-handling parts. */
module Text {

  predicate IsSpace(c: char)
  {
    c == ' ' || '\t' <= c <= '\r'
  }

  /** White space is a blank, a tab, a line feed, a vertical tab, a form feed or a carriage return. */
  lemma {:induction false} SpaceExactly(c: char)
    ensures IsSpace(c) <==>
      c == ' ' || c == '\t' || c == '\n' || c == '\U{0b}' || c == '\U{0c}' || c == '\r'
  {
  }

  function TrimStart(s: string): string
  {
    if s != "" && IsSpace(s[0]) then TrimStart(s[1..]) else s
  }

  function TrimEnd(s: string): string
  {
    if s != "" && IsSpace(s[|s| - 1]) then TrimEnd(s[..|s| - 1]) else s
  }

  function Trim(s: string): string { TrimEnd(TrimStart(s)) }

  predicate OccursAt(s: string, t: string, i: int)
  {
    0 <= i <= i + |t| <= |s| && forall k :: 0 <= k < |t| ==> s[i + k] == t[k]
  }

  /** The first place at or after `from` where t occurs in s, or -1. */
  function Find(s: string, t: string, from: nat): (i: int)
    ensures i >= 0 ==> from <= i && OccursAt(s, t, i)
    decreases |s| - from
  {
    if from > |s| then -1
    else if OccursAt(s, t, from) then from
    else Find(s, t, from + 1)
  }

  lemma {:induction false} FindFirst(s: string, t: string, from: nat, j: int)
    requires from <= j && (Find(s, t, from) < 0 || j < Find(s, t, from))
    ensures !OccursAt(s, t, j)
    decreases |s| - from
  {
    if from <= |s| && !OccursAt(s, t, from) && j != from {
      FindFirst(s, t, from + 1, j);
    }
  }

  predicate Contains(s: string, t: string) { Find(s, t, 0) >= 0 }

  // Lines with their terminators.

  /** The length of the first line, its line break included. */
  function FirstLine(s: string): (n: nat)
    requires s != ""
    ensures 0 < n <= |s|
  {
    if s[0] == '\n' || |s| == 1 then 1 else 1 + FirstLine(s[1..])
  }

  function Lines(s: string): seq<string>
  {
    if s == "" then [] else [s[..FirstLine(s)]] + Lines(s[FirstLine(s)..])
  }

  function Concat(lines: seq<string>): string
  {
    if lines == [] then "" else lines[0] + Concat(lines[1..])
  }

  lemma {:induction false} FirstLineBreak(s: string)
    requires s != ""
    ensures forall i :: 0 <= i < FirstLine(s) - 1 ==> s[i] != '\n'
    ensures FirstLine(s) < |s| ==> s[FirstLine(s) - 1] == '\n'
  {
    if s[0] != '\n' && |s| > 1 {
      FirstLineBreak(s[1..]);
      forall i | 0 <= i < FirstLine(s) - 1 ensures s[i] != '\n' {
        if i > 0 { assert s[i] == s[1..][i - 1]; }
      }
    }
  }

  // Words.

  /** The first place of a character, or -1. */
  function IndexOf(s: string, c: char): (i: int)
    ensures -1 <= i < |s|
    ensures i >= 0 ==> s[i] == c
  {
    if s == "" then -1
    else if s[0] == c then 0
    else
      var i := IndexOf(s[1..], c);
      if i < 0 then -1 else i + 1
  }

  function Before(s: string, c: char): string
  {
    var i := IndexOf(s, c);
    if i < 0 then s else s[..i]
  }

  function Behind(s: string, c: char): string
  {
    var i := IndexOf(s, c);
    if i < 0 then "" else s[i + 1..]
  }

  // Order.

  predicate Less(a: string, b: string)
  {
    b != "" && (a == "" || a[0] < b[0] || (a[0] == b[0] && Less(a[1..], b[1..])))
  }

  /** The first difference decides, and a proper prefix comes first. */
  lemma {:induction false} LessExactly(a: string, b: string)
    ensures Less(a, b) <==> exists i: nat :: DiffersAt(a, b, i)
    decreases a
  {
    if Less(a, b) {
      var i := LessDiffers(a, b);
      assert DiffersAt(a, b, i);
    }
    if i: nat :| DiffersAt(a, b, i) { DifferenceDecides(a, b, i); }
  }

  predicate DiffersAt(a: string, b: string, i: nat)
  {
    i <= |a| && i < |b| && a[..i] == b[..i] && (i == |a| || a[i] < b[i])
  }

  lemma {:induction false} LessDiffers(a: string, b: string) returns (i: nat)
    requires Less(a, b)
    ensures DiffersAt(a, b, i)
    decreases a
  {
    if a != "" && a[0] == b[0] {
      var k := LessDiffers(a[1..], b[1..]);
      i := k + 1;
      assert a[..i] == [a[0]] + a[1..][..k] && b[..i] == [b[0]] + b[1..][..k];
    } else {
      i := 0;
    }
  }

  lemma {:induction false} DifferenceDecides(a: string, b: string, i: nat)
    requires DiffersAt(a, b, i)
    ensures Less(a, b)
    decreases a
  {
    if i > 0 {
      assert a[0] == a[..i][0] == b[..i][0] == b[0];
      assert a[1..][..i - 1] == a[..i][1..] && b[1..][..i - 1] == b[..i][1..];
      DifferenceDecides(a[1..], b[1..], i - 1);
    }
  }

  lemma {:induction false} LessTotal(a: string, b: string)
    ensures Less(a, b) || a == b || Less(b, a)
    decreases a
  {
    if a != "" && b != "" && a[0] == b[0] {
      LessTotal(a[1..], b[1..]);
      assert a == [a[0]] + a[1..] && b == [b[0]] + b[1..];
    }
  }

  lemma {:induction false} LessIrreflexive(a: string)
    ensures !Less(a, a)
  {
    if a != "" { LessIrreflexive(a[1..]); }
  }

  lemma {:induction false} LessTransitive(a: string, b: string, c: string)
    requires Less(a, b) && Less(b, c)
    ensures Less(a, c)
    decreases a
  {
    if a != "" && a[0] == b[0] == c[0] {
      LessTransitive(a[1..], b[1..], c[1..]);
    }
  }

  // Trimming.

  predicate NoSpace(s: string) { forall i :: 0 <= i < |s| ==> !IsSpace(s[i]) }

  lemma {:induction false} TrimEndMore(a: string, c: char)
    ensures TrimEnd(a + [c]) == if IsSpace(c) then TrimEnd(a) else a + [c]
  {
    var s := a + [c];
    assert s[..|s| - 1] == a && s[|s| - 1] == c;
  }

  lemma {:induction false} TrimEndFront(c: char, u: string)
    ensures TrimEnd([c] + u) == if TrimEnd(u) != "" then [c] + TrimEnd(u) else if IsSpace(c) then "" else [c]
    decreases u
  {
    if u == "" {
      assert [c] + u == [c] && [c] == "" + [c];
      TrimEndMore("", c);
    } else {
      var front, last := u[..|u| - 1], u[|u| - 1];
      assert u == front + [last] && [c] + u == ([c] + front) + [last];
      TrimEndMore(front, last);
      TrimEndMore([c] + front, last);
      TrimEndFront(c, front);
    }
  }

  lemma {:induction false} TrimEndTwice(s: string)
    ensures TrimEnd(TrimEnd(s)) == TrimEnd(s)
  {
    if s != "" && IsSpace(s[|s| - 1]) { TrimEndTwice(s[..|s| - 1]); }
  }

  lemma {:induction false} TrimsCommute(s: string)
    ensures TrimStart(TrimEnd(s)) == TrimEnd(TrimStart(s))
  {
    if s != "" {
      var c, u := s[0], s[1..];
      assert s == [c] + u;
      TrimEndFront(c, u);
      TrimsCommute(u);
      if !IsSpace(c) {
        assert TrimStart(s) == s;
      } else if TrimEnd(u) != "" {
        assert ([c] + TrimEnd(u))[1..] == TrimEnd(u);
      }
    }
  }

  lemma {:induction false} TrimTrimmedEnd(s: string)
    ensures Trim(TrimEnd(s)) == Trim(s)
  {
    TrimsCommute(s);
    TrimEndTwice(TrimStart(s));
  }

  /** The line break does not matter to a trimmed line. */
  lemma {:induction false} TrimCrlf(a: string)
    ensures Trim(a + "\r\n") == Trim(a)
  {
    assert a + "\r\n" == (a + ['\r']) + ['\n'];
    TrimEndMore(a + ['\r'], '\n');
    TrimEndMore(a, '\r');
    TrimTrimmedEnd(a + "\r\n");
    TrimTrimmedEnd(a);
  }

  /** A text that starts and ends in something else than white space is trimmed already. */
  lemma {:induction false} TrimNothing(s: string)
    requires s == "" || (!IsSpace(s[0]) && !IsSpace(s[|s| - 1]))
    ensures Trim(s) == s
  {
  }

  lemma {:induction false} NotBlank(s: string, i: nat)
    requires i < |s| && !IsSpace(s[i])
    ensures Trim(s) != ""
  {
    TrimsCommute(s);
    EndNotBlank(s, i);
    var e := TrimEnd(s);
    StartNotBlank(e, i);
    TrimEndTwice(TrimStart(s));
  }

  lemma {:induction false} EndNotBlank(s: string, i: nat)
    requires i < |s| && !IsSpace(s[i])
    ensures i < |TrimEnd(s)| && TrimEnd(s)[i] == s[i]
  {
    if IsSpace(s[|s| - 1]) { EndNotBlank(s[..|s| - 1], i); }
  }

  lemma {:induction false} StartNotBlank(s: string, i: nat)
    requires i < |s| && !IsSpace(s[i])
    ensures TrimStart(s) != ""
  {
    if IsSpace(s[0]) { StartNotBlank(s[1..], i - 1); }
  }

  /** Trimming the end stops at a character that is not white space. */
  lemma {:induction false} TrimEndStops(a: string, w: string)
    requires a != "" && !IsSpace(a[|a| - 1])
    ensures TrimEnd(a + w) == a + TrimEnd(w)
    decreases w
  {
    if w == "" {
      assert a + w == a;
    } else {
      var front, last := w[..|w| - 1], w[|w| - 1];
      assert w == front + [last] && a + w == (a + front) + [last];
      TrimEndMore(front, last);
      TrimEndMore(a + front, last);
      TrimEndStops(a, front);
    }
  }

  lemma {:induction false} IndexIs(a: string, c: char, rest: string)
    requires c !in a
    ensures IndexOf(a + [c] + rest, c) == |a|
    decreases a
  {
    var s := a + [c] + rest;
    if a != "" {
      assert a[0] in a;
      assert s[1..] == a[1..] + [c] + rest;
      IndexIs(a[1..], c, rest);
    }
  }

  /** What stands before and behind the first occurrence of a character. */
  lemma {:induction false} SplitAt(a: string, c: char, rest: string)
    requires c !in a
    ensures IndexOf(a + [c] + rest, c) >= 0
    ensures Before(a + [c] + rest, c) == a && Behind(a + [c] + rest, c) == rest
  {
    IndexIs(a, c, rest);
    var s := a + [c] + rest;
    assert s[..|a|] == a && s[|a| + 1..] == rest;
  }

  lemma {:induction false} IndexNone(s: string, c: char)
    requires c !in s
    ensures IndexOf(s, c) == -1
  {
    if s != "" {
      assert s[0] in s;
      IndexNone(s[1..], c);
    }
  }

  lemma {:induction false} FoundIfIn(s: string, c: char)
    requires c in s
    ensures IndexOf(s, c) >= 0
  {
    if s[0] != c { FoundIfIn(s[1..], c); }
  }

  lemma {:induction false} TrimTwice(s: string)
    ensures Trim(Trim(s)) == Trim(s)
  {
    TrimTrimmedEnd(TrimStart(s));
    StartTwice(s);
  }

  lemma {:induction false} StartTwice(s: string)
    ensures TrimStart(TrimStart(s)) == TrimStart(s)
  {
    if s != "" && IsSpace(s[0]) { StartTwice(s[1..]); }
  }

  /** Trimming adds no character. */
  lemma {:induction false} TrimPart(s: string)
    ensures forall c :: c in Trim(s) ==> c in s
  {
    StartPart(s);
    EndPart(TrimStart(s));
  }

  lemma {:induction false} StartPart(s: string)
    ensures forall c :: c in TrimStart(s) ==> c in s
  {
    if s != "" && IsSpace(s[0]) { StartPart(s[1..]); }
  }

  lemma {:induction false} EndPart(s: string)
    ensures forall c :: c in TrimEnd(s) ==> c in s
  {
    if s != "" && IsSpace(s[|s| - 1]) { EndPart(s[..|s| - 1]); }
  }

  /** What stands before the first occurrence of a character does not hold it. */
  lemma {:induction false} FirstOnly(s: string, mark: char)
    ensures forall k :: 0 <= k < |Before(s, mark)| ==> s[k] != mark
    ensures mark !in Before(s, mark)
  {
    if s != "" && s[0] != mark {
      FirstOnly(s[1..], mark);
      forall k | 0 <= k < |Before(s, mark)| ensures s[k] != mark {
        if k > 0 { assert s[k] == s[1..][k - 1]; }
      }
    }
  }
}
