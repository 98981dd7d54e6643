/** Printing a registered node and everything below it. */
module XmlPrint {

  import opened XmlParse
  import opened XmlHeap

  // Escaping.

  function Replace(s: string, c: char, with: string): string
  {
    if s == "" then "" else (if s[0] == c then with else [s[0]]) + Replace(s[1..], c, with)
  }

  function XmlEscape(s: string): string
  {
    Replace(Replace(Replace(Replace(Replace(s, '&', "&amp;"), '<', "&lt;"), '>', "&gt;"), '"', "&quot;"), '\'', "&apos;")
  }

  function Escaped(c: char): string
  {
    if c == '&' then "&amp;" else if c == '<' then "&lt;" else if c == '>' then "&gt;"
    else if c == '"' then "&quot;" else if c == '\'' then "&apos;" else [c]
  }

  function EscapedAll(s: string): string
  {
    if s == "" then "" else Escaped(s[0]) + EscapedAll(s[1..])
  }

  lemma {:induction false} ReplaceAppend(a: string, b: string, c: char, with: string)
    ensures Replace(a + b, c, with) == Replace(a, c, with) + Replace(b, c, with)
  {
    if a == "" {
      assert a + b == b;
    } else {
      assert (a + b)[1..] == a[1..] + b;
      ReplaceAppend(a[1..], b, c, with);
    }
  }

  lemma {:induction false} ReplaceAbsent(s: string, c: char, with: string)
    requires c !in s
    ensures Replace(s, c, with) == s
  {
    if s != "" {
      assert s == [s[0]] + s[1..];
      ReplaceAbsent(s[1..], c, with);
    }
  }

  lemma {:induction false} ReplaceOne(x: char, c: char, with: string)
    ensures Replace([x], c, with) == if x == c then with else [x]
  {
    assert [x][1..] == "";
    assert Replace("", c, with) == "";
  }

  lemma {:induction false} EscapeAppend(a: string, b: string)
    ensures XmlEscape(a + b) == XmlEscape(a) + XmlEscape(b)
  {
    ReplaceAppend(a, b, '&', "&amp;");
    var a1, b1 := Replace(a, '&', "&amp;"), Replace(b, '&', "&amp;");
    ReplaceAppend(a1, b1, '<', "&lt;");
    var a2, b2 := Replace(a1, '<', "&lt;"), Replace(b1, '<', "&lt;");
    ReplaceAppend(a2, b2, '>', "&gt;");
    var a3, b3 := Replace(a2, '>', "&gt;"), Replace(b2, '>', "&gt;");
    ReplaceAppend(a3, b3, '"', "&quot;");
    ReplaceAppend(Replace(a3, '"', "&quot;"), Replace(b3, '"', "&quot;"), '\'', "&apos;");
  }

  /** The replacements after the first, second, third and fourth. */
  lemma {:induction false} LaterStages(s: string)
    ensures '\'' !in s ==> Replace(s, '\'', "&apos;") == s
    ensures '\'' !in s && '"' !in s ==> Replace(Replace(s, '"', "&quot;"), '\'', "&apos;") == s
  {
    if '\'' !in s { ReplaceAbsent(s, '\'', "&apos;"); }
    if '"' !in s { ReplaceAbsent(s, '"', "&quot;"); }
  }

  lemma {:induction false} AllLaterStages(s: string)
    requires '>' !in s && '"' !in s && '\'' !in s
    ensures Replace(Replace(Replace(s, '>', "&gt;"), '"', "&quot;"), '\'', "&apos;") == s
    ensures '<' !in s ==>
              Replace(Replace(Replace(Replace(s, '<', "&lt;"), '>', "&gt;"), '"', "&quot;"), '\'', "&apos;") == s
  {
    ReplaceAbsent(s, '>', "&gt;");
    LaterStages(s);
    if '<' !in s { ReplaceAbsent(s, '<', "&lt;"); }
  }

  lemma {:induction false} EscapeOne(c: char)
    ensures XmlEscape([c]) == Escaped(c)
  {
    ReplaceOne(c, '&', "&amp;");
    if c == '&' {
      AllLaterStages("&amp;");
    } else {
      EscapeOneLater(c);
    }
  }

  lemma {:induction false} EscapeOneLater(c: char)
    requires c != '&'
    ensures Replace(Replace(Replace(Replace([c], '<', "&lt;"), '>', "&gt;"), '"', "&quot;"), '\'', "&apos;") == Escaped(c)
  {
    hide Replace;
    ReplaceOne(c, '<', "&lt;");
    if c == '<' {
      AllLaterStages("&lt;");
    } else {
      ReplaceOne(c, '>', "&gt;");
      if c == '>' {
        LaterStages("&gt;");
      } else {
        ReplaceOne(c, '"', "&quot;");
        ReplaceOne(c, '\'', "&apos;");
        if c == '"' { LaterStages("&quot;"); }
      }
    }
  }

  /** The five replacements in a row escape each character once. */
  lemma {:induction false} EscapeIsOnePass(s: string)
    ensures XmlEscape(s) == EscapedAll(s)
  {
    if s == "" {
    } else {
      assert s == [s[0]] + s[1..];
      EscapeAppend([s[0]], s[1..]);
      EscapeOne(s[0]);
      EscapeIsOnePass(s[1..]);
    }
  }

  /** The five predefined entities of XML 1.0, section 4.6, read back. */
  function Unescape(s: string): string
  {
    if s == "" then ""
    else if "&amp;" <= s then "&" + Unescape(s[5..])
    else if "&lt;" <= s then "<" + Unescape(s[4..])
    else if "&gt;" <= s then ">" + Unescape(s[4..])
    else if "&quot;" <= s then "\"" + Unescape(s[6..])
    else if "&apos;" <= s then "'" + Unescape(s[6..])
    else [s[0]] + Unescape(s[1..])
  }

  lemma {:induction false} UnescapeFront(c: char, rest: string)
    ensures Unescape(Escaped(c) + rest) == [c] + Unescape(rest)
  {
    var s := Escaped(c) + rest;
    Front(Escaped(c), rest);
    if c == '<' {
      assert s[1] == 'l';
    } else if c == '>' {
      assert s[1] == 'g';
    } else if c == '"' {
      assert s[1] == 'q';
    } else if c == '\'' {
      assert s[1] == 'a' && s[2] == 'p';
    } else if c != '&' {
      assert s[0] == c;
    }
  }

  lemma {:induction false} Front(a: string, b: string)
    ensures a <= a + b && (a + b)[|a|..] == b
  {
  }

  lemma {:induction false} EscapeUndone(s: string)
    ensures Unescape(EscapedAll(s)) == s
  {
    if s != "" {
      UnescapeFront(s[0], EscapedAll(s[1..]));
      EscapeUndone(s[1..]);
    }
  }

  predicate Plain(s: string)
  {
    forall i :: 0 <= i < |s| ==> s[i] != '<' && s[i] != '>' && s[i] != '"' && s[i] != '\''
  }

  lemma {:induction false} EscapePlain(s: string)
    ensures Plain(EscapedAll(s))
  {
    if s != "" {
      EscapePlain(s[1..]);
      assert Plain(Escaped(s[0]));
    }
  }

  /** Reading the entities back undoes the escaping, whose result can stand in text and quotes. */
  lemma {:induction false} EscapeRoundTrip(s: string)
    ensures Unescape(XmlEscape(s)) == s && Plain(XmlEscape(s))
  {
    EscapeIsOnePass(s);
    EscapeUndone(s);
    EscapePlain(s);
  }

  predicate Special(c: char) { c in "&<>\"'" }

  predicate Unspecial(s: string) { forall i :: 0 <= i < |s| ==> !Special(s[i]) }

  lemma {:induction false} UnspecialStays(s: string)
    requires Unspecial(s)
    ensures EscapedAll(s) == s
  {
    if s != "" {
      UnspecialStays(s[1..]);
      assert s == [s[0]] + s[1..];
    }
  }

  lemma {:induction false} EscapedLength(s: string)
    ensures |s| <= |EscapedAll(s)|
    ensures !Unspecial(s) ==> |s| < |EscapedAll(s)|
  {
    if s != "" {
      EscapedLength(s[1..]);
      SpecialRest(s);
    }
  }

  lemma {:induction false} SpecialRest(s: string)
    requires s != ""
    ensures Unspecial(s) <==> !Special(s[0]) && Unspecial(s[1..])
  {
    var rest := s[1..];
    if !Special(s[0]) && Unspecial(rest) {
      forall i | 0 <= i < |s| ensures !Special(s[i]) {
        if i > 0 { assert s[i] == rest[i - 1]; }
      }
    }
  }

  /**
   * Attribute values are stored as written and escaped when printed; such a value is
   * printed as written exactly when it holds none of the five characters.
   */
  lemma {:induction false} EscapeUnchanged(s: string)
    ensures XmlEscape(s) == s <==> Unspecial(s)
  {
    EscapeIsOnePass(s);
    EscapedLength(s);
    if Unspecial(s) { UnspecialStays(s); }
  }

  // The printed form of a tree.

  function AttributesText(attributes: Attributes): string
  {
    if attributes == [] then ""
    else AttributesText(attributes[..|attributes| - 1]) + AttributeText(attributes[|attributes| - 1])
  }

  function AttributeText(a: (string, string)): string
  {
    " " + a.0 + "=\"" + XmlEscape(a.1) + "\""
  }

  function OpeningTag(tag: string, attributes: Attributes): string
  {
    "<" + tag + AttributesText(attributes)
  }

  function ClosingTag(tag: string): string { "</" + tag + ">" }

  function Print(t: Tree): string
    decreases t
  {
    if t.children == [] && t.text == "" then OpeningTag(t.tag, t.attributes) + "/>"
    else OpeningTag(t.tag, t.attributes) + ">" + XmlEscape(t.text) + PrintAll(t.children) + ClosingTag(t.tag)
  }

  function PrintAll(ts: seq<Tree>): string
    decreases ts
  {
    if ts == [] then "" else Print(ts[0]) + PrintAll(ts[1..])
  }

  // The printed form of a handle.

  datatype Rendered = Invalid | Rendered(text: string)

  ghost predicate Ascending(nodes: Nodes, nextId: nat)
  {
    forall h :: h in nodes ==> h < nextId && forall i :: 0 <= i < |nodes[h].children| ==> h < nodes[h].children[i] < nextId
  }

  lemma {:induction false} OwnedAscending(nodes: Nodes, nextId: nat, owners: Owners)
    requires Owned(nodes, nextId, owners)
    ensures Ascending(nodes, nextId)
  {
  }

  predicate Between(hs: seq<nat>, lo: nat, hi: nat)
  {
    forall i :: 0 <= i < |hs| ==> lo <= hs[i] < hi
  }

  function Whole(n: Node, inner: string): string
  {
    if n.children == [] && n.text == "" then OpeningTag(n.tag, n.attributes) + "/>"
    else OpeningTag(n.tag, n.attributes) + ">" + XmlEscape(n.text) + inner + ClosingTag(n.tag)
  }

  ghost function Render(nodes: Nodes, nextId: nat, h: nat): Rendered
    requires Ascending(nodes, nextId)
    decreases nextId - h, 0
  {
    if h !in nodes then Invalid
    else
      match RenderAll(nodes, nextId, h + 1, nodes[h].children)
      case Invalid => Invalid
      case Rendered(inner) => Rendered(Whole(nodes[h], inner))
  }

  /** Handles from lo on, one after the other; invalid as soon as one is. */
  ghost function RenderAll(nodes: Nodes, nextId: nat, lo: nat, hs: seq<nat>): Rendered
    requires Ascending(nodes, nextId) && lo <= nextId && Between(hs, lo, nextId)
    decreases nextId - lo, |hs| + 1
  {
    if hs == [] then Rendered("")
    else
      match RenderAll(nodes, nextId, lo, hs[..|hs| - 1])
      case Invalid => Invalid
      case Rendered(before) =>
        match Render(nodes, nextId, hs[|hs| - 1])
        case Invalid => Invalid
        case Rendered(last) => Rendered(before + last)
  }

  // Printing a laid-out tree.

  lemma {:induction false} PrintAllMore(ts: seq<Tree>, t: Tree)
    ensures PrintAll(ts + [t]) == PrintAll(ts) + Print(t)
  {
    if ts == [] {
      assert [] + [t] == [t];
      assert PrintAll([t]) == Print(t) + PrintAll([t][1..]);
    } else {
      assert (ts + [t])[1..] == ts[1..] + [t];
      PrintAllMore(ts[1..], t);
    }
  }

  lemma {:induction false} LaidMore(nodes: Nodes, at: nat, ts: seq<Tree>)
    requires ts != [] && AllLaid(nodes, at, ts)
    ensures AllLaid(nodes, at, ts[..|ts| - 1])
    ensures Laid(nodes, Handles(at, ts)[|ts| - 1], ts[|ts| - 1])
    ensures Handles(at, ts)[..|ts| - 1] == Handles(at, ts[..|ts| - 1])
    decreases ts
  {
    if |ts| > 1 {
      var rest := ts[1..];
      LaidMore(nodes, at + Size(ts[0]), rest);
      assert ts[..|ts| - 1][1..] == rest[..|rest| - 1];
      assert Handles(at, ts) == [at] + Handles(at + Size(ts[0]), rest);
    } else {
      assert ts[..0] == [];
    }
  }

  /** A laid-out tree prints as the tree does. */
  lemma {:induction false} LaidPrints(nodes: Nodes, nextId: nat, at: nat, t: Tree)
    requires Ascending(nodes, nextId) && Laid(nodes, at, t)
    ensures Render(nodes, nextId, at) == Rendered(Print(t))
    decreases t
  {
    var hs := nodes[at].children;
    AllLaidPrint(nodes, nextId, at + 1, at + 1, t.children, hs);
    assert hs == [] <==> t.children == [];
  }

  lemma {:induction false} PrintSplit(ts: seq<Tree>, n: nat)
    requires |ts| == n + 1
    ensures PrintAll(ts) == PrintAll(ts[..n]) + Print(ts[n])
  {
    PrintAllMore(ts[..n], ts[n]);
    assert ts[..n] + [ts[n]] == ts;
  }

  lemma {:induction false} RenderMore(nodes: Nodes, nextId: nat, lo: nat, hs: seq<nat>, before: string, last: string)
    requires Ascending(nodes, nextId) && lo <= nextId && Between(hs, lo, nextId) && hs != []
    requires RenderAll(nodes, nextId, lo, hs[..|hs| - 1]) == Rendered(before)
    requires Render(nodes, nextId, hs[|hs| - 1]) == Rendered(last)
    ensures RenderAll(nodes, nextId, lo, hs) == Rendered(before + last)
  {
  }

  lemma {:induction false} AllLaidPrint(nodes: Nodes, nextId: nat, lo: nat, at: nat, ts: seq<Tree>, hs: seq<nat>)
    requires Ascending(nodes, nextId) && AllLaid(nodes, at, ts)
    requires hs == Handles(at, ts) && lo <= nextId && Between(hs, lo, nextId)
    ensures RenderAll(nodes, nextId, lo, hs) == Rendered(PrintAll(ts))
    decreases ts
  {
    if ts != [] {
      var n := |ts| - 1;
      LaidMore(nodes, at, ts);
      AllLaidPrint(nodes, nextId, lo, at, ts[..n], hs[..n]);
      LaidPrints(nodes, nextId, hs[n], ts[n]);
      RenderMore(nodes, nextId, lo, hs, PrintAll(ts[..n]), Print(ts[n]));
      PrintSplit(ts, n);
    }
  }

  // When printing fails.

  /** c is a child handle of a node reached from h and no longer names a node. */
  ghost predicate DanglesBelow(nodes: Nodes, h: nat, k: nat, c: nat)
  {
    Reaches(nodes, h, k) && k in nodes && c in nodes[k].children && c !in nodes
  }

  ghost predicate Broken(nodes: Nodes, h: nat)
  {
    h !in nodes || exists k, c :: DanglesBelow(nodes, h, k, c)
  }

  /** Printing fails exactly when the handle or a child handle below it dangles. */
  lemma {:induction false} InvalidExactly(nodes: Nodes, nextId: nat, h: nat)
    requires Ascending(nodes, nextId)
    ensures Render(nodes, nextId, h).Invalid? <==> Broken(nodes, h)
    decreases nextId - h, 0
  {
    if h in nodes {
      AnyInvalidExactly(nodes, nextId, h + 1, nodes[h].children);
      BrokenBelow(nodes, nextId, h);
    }
  }

  ghost predicate AnyBroken(nodes: Nodes, hs: seq<nat>)
  {
    exists i :: 0 <= i < |hs| && Broken(nodes, hs[i])
  }

  lemma {:induction false} AnyInvalidExactly(nodes: Nodes, nextId: nat, lo: nat, hs: seq<nat>)
    requires Ascending(nodes, nextId) && lo <= nextId && Between(hs, lo, nextId)
    ensures RenderAll(nodes, nextId, lo, hs).Invalid? <==> AnyBroken(nodes, hs)
    decreases nextId - lo, |hs| + 1
  {
    if hs != [] {
      var n := |hs| - 1;
      var front := hs[..n];
      AnyInvalidExactly(nodes, nextId, lo, front);
      InvalidExactly(nodes, nextId, hs[n]);
      if AnyBroken(nodes, front) {
        var i :| 0 <= i < |front| && Broken(nodes, front[i]);
        assert Broken(nodes, hs[i]);
      }
      if AnyBroken(nodes, hs) && !Broken(nodes, hs[n]) {
        var i :| 0 <= i < |hs| && Broken(nodes, hs[i]);
        assert Broken(nodes, front[i]);
      }
    }
  }

  lemma {:induction false} BrokenBelow(nodes: Nodes, nextId: nat, h: nat)
    requires Ascending(nodes, nextId) && h in nodes
    ensures Broken(nodes, h) <==> AnyBroken(nodes, nodes[h].children)
  {
    var cs := nodes[h].children;
    if AnyBroken(nodes, cs) {
      var i :| 0 <= i < |cs| && Broken(nodes, cs[i]);
      if cs[i] !in nodes {
        ReachesItself(nodes, h);
        assert DanglesBelow(nodes, h, h, cs[i]);
      } else {
        var k, c :| DanglesBelow(nodes, cs[i], k, c);
        ReachesChild(nodes, h, cs[i]);
        ReachesTransitive(nodes, h, cs[i], k);
        assert DanglesBelow(nodes, h, k, c);
      }
    }
    if Broken(nodes, h) {
      var k, c :| DanglesBelow(nodes, h, k, c);
      if k == h {
        var i :| 0 <= i < |cs| && cs[i] == c;
        assert Broken(nodes, cs[i]);
      } else {
        var i := ThroughChild(nodes, h, k);
        assert DanglesBelow(nodes, cs[i], k, c);
        assert Broken(nodes, cs[i]);
      }
    }
  }

  /** Releasing a proper descendant breaks the printing of everything above it. */
  lemma {:induction false} ReleaseBreaks(nodes: Nodes, nextId: nat, owners: Owners, h: nat, d: nat)
    requires Owned(nodes, nextId, owners) && Reaches(nodes, h, d)
    ensures Broken(Released(nodes, d), h)
  {
    var rest := Released(nodes, d);
    var p :| LivePath(nodes, p) && p[0] == h && p[|p| - 1] == d;
    FirstGone(nodes, d, p, 0);
  }

  /** Along a path to d, some node survives d's release and its successor does not. */
  lemma {:induction false} FirstGone(nodes: Nodes, d: nat, p: seq<nat>, i: nat)
    requires LivePath(nodes, p) && i < |p| && p[|p| - 1] == d
    ensures Broken(Released(nodes, d), p[i])
    decreases |p| - i
  {
    var rest := Released(nodes, d);
    if p[i] in rest && i + 1 < |p| {
      FirstGone(nodes, d, p, i + 1);
      assert p[i + 1] in nodes[p[i]].children;
      ReachesItself(rest, p[i]);
      if p[i + 1] !in rest {
        assert DanglesBelow(rest, p[i], p[i], p[i + 1]);
      } else {
        var k, c :| DanglesBelow(rest, p[i + 1], k, c);
        ReachesChild(rest, p[i], p[i + 1]);
        ReachesTransitive(rest, p[i], p[i + 1], k);
        assert DanglesBelow(rest, p[i], k, c);
      }
    } else if p[i] in rest {
      ReachesItself(nodes, d);
    }
  }
}
