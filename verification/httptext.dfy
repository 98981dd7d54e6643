/** Facts about trimming, lines and header fields that reading a written message needs. */
module HttpText {

  import opened Options
  import opened Text
  import opened HttpRead

  const CRLF := "\r\n"

  // Lines.

  lemma {:induction false} FirstLineIs(s: string, i: nat)
    requires i < |s| && s[i] == '\n' && forall k :: 0 <= k < i ==> s[k] != '\n'
    ensures FirstLine(s) == i + 1
  {
    if i > 0 {
      FirstLineIs(s[1..], i - 1);
    }
  }

  /** A line that ends in CRLF is read whole, and reading goes on behind it. */
  lemma {:induction false} LineRead(a: string, rest: string)
    requires '\n' !in a
    ensures NextLine(a + CRLF + rest) == a + CRLF && AfterLine(a + CRLF + rest) == rest
  {
    var s := a + CRLF + rest;
    assert s[|a|] == '\r' && s[|a| + 1] == '\n';
    forall k | 0 <= k < |a| + 1 ensures s[k] != '\n' {
      if k < |a| { assert s[k] == a[k] && a[k] in a; }
    }
    FirstLineIs(s, |a| + 1);
    assert s[..|a| + 2] == a + CRLF && s[|a| + 2..] == rest;
  }

  // Header fields.

  predicate FieldName(name: string)
  {
    name != "" && ':' !in name && '\n' !in name && !IsSpace(name[0])
  }

  function Field(name: string, value: string): string { name + ": " + value }

  /** A field written as "name: value" is read back, its name in lower case. */
  lemma {:induction false} FieldRead(name: string, value: string)
    requires FieldName(name)
    ensures Trim(Field(name, value)) != "" && HasColon(Trim(Field(name, value)))
    ensures KeyOf(Trim(Field(name, value))) == Lower(Trim(name))
    ensures ValueOf(Trim(Field(name, value))) == Trim(value)
  {
    var line, w := Field(name, value), " " + value;
    assert line == (name + [':']) + w;
    assert TrimStart(line) == line;
    TrimEndStops(name + [':'], w);
    assert Trim(line) == name + [':'] + TrimEnd(w);
    SplitAt(name, ':', TrimEnd(w));
    TrimTrimmedEnd(w);
    assert w[1..] == value;
    assert Trim(w) == Trim(value);
  }

  lemma {:induction false} TrimStartStops(a: string, c: char, w: string)
    requires !IsSpace(c)
    ensures TrimStart(a + [c] + w) == TrimStart(a) + [c] + w
    decreases a
  {
    var s := a + [c] + w;
    if a != "" && IsSpace(a[0]) {
      assert s[1..] == a[1..] + [c] + w;
      TrimStartStops(a[1..], c, w);
    }
  }

  lemma {:induction false} TrimStartPart(a: string, c: char)
    requires c !in a
    ensures c !in TrimStart(a)
  {
    StartPart(a);
  }

  /** Up to its first colon a written line gives the key, whatever the name was. */
  lemma {:induction false} LineKey(a: string, w: string)
    requires ':' !in a
    ensures Trim(a + [':'] + w) != "" && HasColon(Trim(a + [':'] + w))
    ensures KeyOf(Trim(a + [':'] + w)) == Lower(Trim(a))
  {
    var b := TrimStart(a);
    TrimStartStops(a, ':', w);
    TrimEndStops(b + [':'], w);
    TrimStartPart(a, ':');
    SplitAt(b, ':', TrimEnd(w));
    StartTwice(a);
  }

  /** The key under which a field is read: its name up to a colon, trimmed, in lower case. */
  function FieldKey(name: string): string { Lower(Trim(Before(name, ':'))) }

  lemma {:induction false} FieldKeyRead(name: string, value: string)
    ensures Trim(Field(name, value)) != "" && HasColon(Trim(Field(name, value)))
    ensures KeyOf(Trim(Field(name, value))) == FieldKey(name)
  {
    var i := IndexOf(name, ':');
    FirstOnly(name, ':');
    if i < 0 {
      assert Field(name, value) == name + [':'] + (" " + value);
      LineKey(name, " " + value);
    } else {
      var a, w := name[..i], name[i + 1..] + ": " + value;
      assert Field(name, value) == a + [':'] + w;
      LineKey(a, w);
    }
  }

  /** A header line: on one line, and not blank. */
  predicate HeaderLine(line: string) { '\n' !in line && Trim(line) != "" }

  predicate HeaderLines(lines: seq<string>)
  {
    forall i :: 0 <= i < |lines| ==> HeaderLine(lines[i])
  }

  /** Header lines, the blank line and what follows. */
  function HeadText(lines: seq<string>, rest: string): string
  {
    if lines == [] then CRLF + rest else lines[0] + CRLF + HeadText(lines[1..], rest)
  }

  /** A message as it is sent: its first line, its header lines, a blank line and the rest. */
  function MessageText(first: string, lines: seq<string>, rest: string): string
  {
    first + CRLF + HeadText(lines, rest)
  }

  function Collect(h: Head, lines: seq<string>): Head
    decreases lines
  {
    if lines == [] then h else Collect(AddLine(h, Trim(lines[0])), lines[1..])
  }

  /** Written header lines are collected one by one, and what follows the head is left. */
  lemma {:induction false} HeadReadBack(lines: seq<string>, rest: string, h: Head)
    requires HeaderLines(lines)
    ensures ReadHead(HeadText(lines, rest), h) == Collect(h, lines)
    ensures AfterHead(HeadText(lines, rest)) == rest
    decreases lines
  {
    if lines == [] {
      assert CRLF + rest == "" + CRLF + rest;
      LineRead("", rest);
      TrimCrlf("");
      assert "" + CRLF == CRLF;
    } else {
      var later := HeadText(lines[1..], rest);
      assert HeaderLine(lines[0]);
      LineRead(lines[0], later);
      TrimCrlf(lines[0]);
      HeadReadBack(lines[1..], rest, AddLine(h, Trim(lines[0])));
    }
  }

  // Which headers a head ends up with.

  /** No line sets this key. */
  predicate Free(lines: seq<string>, key: string)
  {
    forall i :: 0 <= i < |lines| ==> !HasColon(Trim(lines[i])) || KeyOf(Trim(lines[i])) != key
  }

  lemma {:induction false} FreeRest(lines: seq<string>, key: string)
    requires lines != [] && Free(lines, key)
    ensures Free(lines[1..], key) && (!HasColon(Trim(lines[0])) || KeyOf(Trim(lines[0])) != key)
  {
    assert forall i :: 0 <= i < |lines| - 1 ==> lines[1..][i] == lines[i + 1];
  }

  /** A key no line sets keeps its value, and framing no line sets stays as it is. */
  lemma {:induction false} CollectKeeps(h: Head, lines: seq<string>, key: string)
    requires Free(lines, key)
    ensures key in Collect(h, lines).headers <==> key in h.headers
    ensures key in h.headers ==> Collect(h, lines).headers[key] == h.headers[key]
    ensures key == "content-length" ==> Collect(h, lines).length == h.length
    ensures key == "transfer-encoding" ==> Collect(h, lines).chunked == h.chunked
    decreases lines
  {
    if lines != [] {
      FreeRest(lines, key);
      CollectKeeps(AddLine(h, Trim(lines[0])), lines[1..], key);
    }
  }

  /** The last line that sets a key decides its value. */
  lemma {:induction false} CollectFinds(h: Head, lines: seq<string>, i: nat)
    requires i < |lines| && HasColon(Trim(lines[i])) && Free(lines[i + 1..], KeyOf(Trim(lines[i])))
    ensures KeyOf(Trim(lines[i])) in Collect(h, lines).headers
    ensures Collect(h, lines).headers[KeyOf(Trim(lines[i]))] == ValueOf(Trim(lines[i]))
    decreases lines
  {
    var next := AddLine(h, Trim(lines[0]));
    if i == 0 {
      CollectKeeps(next, lines[1..], KeyOf(Trim(lines[0])));
    } else {
      assert lines[1..][i - 1] == lines[i] && lines[1..][i..] == lines[i + 1..];
      CollectFinds(next, lines[1..], i - 1);
    }
  }

  lemma {:induction false} CollectAppend(h: Head, a: seq<string>, b: seq<string>)
    ensures Collect(h, a + b) == Collect(Collect(h, a), b)
    decreases a
  {
    if a == [] {
      assert a + b == b;
    } else {
      assert (a + b)[1..] == a[1..] + b;
      CollectAppend(AddLine(h, Trim(a[0])), a[1..], b);
    }
  }
}
