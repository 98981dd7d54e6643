/** Reading printed XML back: a reader of tags, attributes and text, and what the printer gives it. */
module XmlRead {

  import opened Options
  import opened Sequences
  import opened Text
  import opened XmlParse
  import opened XmlPrint

  // The reader, after sections 2.4 and 3.1 of XML 1.0; it knows nothing of the printer.

  /** A character that can be part of a name: not white space, no markup. */
  predicate NameChar(c: char)
  {
    !IsSpace(c) && c != '<' && c != '>' && c != '/' && c != '=' && c != '"' && c != '\'' && c != '&'
  }

  function NameLength(s: string): (n: nat)
    ensures n <= |s|
  {
    if s != "" && NameChar(s[0]) then 1 + NameLength(s[1..]) else 0
  }

  /** How far it is to the next c, or to the end. */
  function Upto(s: string, c: char): (n: nat)
    ensures n <= |s|
  {
    if s == "" || s[0] == c then 0 else 1 + Upto(s[1..], c)
  }

  /** What follows the name in a start tag: attributes, whether it is closed, and the text behind it. */
  datatype Tag = Tag(attributes: Attributes, closed: bool, rest: string)

  /** Values are delivered as they are written; white space must stand before every key. */
  function ReadTag(s: string, attributes: Attributes, spaced: bool): (r: Option<Tag>)
    ensures r.Some? ==> |r.value.rest| < |s|
    decreases |s|
  {
    if s == "" then None
    else if s[0] == '>' then Some(Tag(attributes, false, s[1..]))
    else if s[0] == '/' then (if |s| > 1 && s[1] == '>' then Some(Tag(attributes, true, s[2..])) else None)
    else if IsSpace(s[0]) then ReadTag(s[1..], attributes, true)
    else
      var n := NameLength(s);
      if !spaced || n == 0 || n + 2 > |s| || s[n] != '=' || s[n + 1] != '"' then None
      else
        var v := s[n + 2..];
        var q := Upto(v, '"');
        if q == |v| then None else ReadTag(v[q + 1..], attributes + [(s[..n], v[..q])], false)
  }

  function Then(e: Event, later: Option<seq<Event>>): Option<seq<Event>>
  {
    if later.Some? then Some([e] + later.value) else None
  }

  /** The events of a text in which these elements are open, innermost last; end tags must match. */
  function ReadEvents(s: string, open: seq<string>): Option<seq<Event>>
    decreases |s|
  {
    if s == "" then (if open == [] then Some([]) else None)
    else if s[0] != '<' then
      var n := Upto(s, '<');
      Then(XmlParse.Text(Unescape(s[..n])), ReadEvents(s[n..], open))
    else if |s| > 1 && s[1] == '/' then
      var name := s[2..];
      var n := NameLength(name);
      if n == |name| || name[n] != '>' || open == [] || open[|open| - 1] != name[..n] then None
      else Then(End, ReadEvents(name[n + 1..], open[..|open| - 1]))
    else
      var name := s[1..];
      var n := NameLength(name);
      var tag := ReadTag(name[n..], [], false);
      if n == 0 || tag.None? then None
      else if tag.value.closed then Then(Empty(name[..n], tag.value.attributes), ReadEvents(tag.value.rest, open))
      else Then(Start(name[..n], tag.value.attributes), ReadEvents(tag.value.rest, open + [name[..n]]))
  }

  // Small texts.

  predicate Name(s: string) { s != "" && forall i :: 0 <= i < |s| ==> NameChar(s[i]) }

  lemma {:induction false} NameRead(name: string, rest: string)
    requires (forall i :: 0 <= i < |name| ==> NameChar(name[i])) && rest != "" && !NameChar(rest[0])
    ensures NameLength(name + rest) == |name|
  {
    if name == "" {
      assert name + rest == rest;
    } else {
      assert (name + rest)[1..] == name[1..] + rest;
      NameRead(name[1..], rest);
    }
  }

  lemma {:induction false} UptoRead(a: string, c: char, rest: string)
    requires (forall i :: 0 <= i < |a| ==> a[i] != c) && rest != "" && rest[0] == c
    ensures Upto(a + rest, c) == |a|
  {
    if a == "" {
      assert a + rest == rest;
    } else {
      assert (a + rest)[1..] == a[1..] + rest;
      UptoRead(a[1..], c, rest);
    }
  }

  lemma {:induction false} Cut(a: string, b: string)
    ensures (a + b)[..|a|] == a && (a + b)[|a|..] == b
  {
  }

  // Attributes.

  /** Attributes as the reader delivers them: values as they are printed. */
  function Shown(attributes: Attributes): Attributes
  {
    if attributes == [] then [] else [(attributes[0].0, XmlEscape(attributes[0].1))] + Shown(attributes[1..])
  }

  predicate Keys(attributes: Attributes)
  {
    forall i :: 0 <= i < |attributes| ==> Name(attributes[i].0)
  }

  lemma {:induction false} AttributesFront(attributes: Attributes)
    requires attributes != []
    ensures AttributesText(attributes) == AttributeText(attributes[0]) + AttributesText(attributes[1..])
    decreases attributes
  {
    var n := |attributes| - 1;
    var last := AttributeText(attributes[n]);
    hide AttributeText;
    if n == 0 {
      assert attributes[..0] == [] && attributes[1..] == [];
      assert AttributesText([]) == "";
      assert AttributesText(attributes) == "" + last && last + "" == last;
    } else {
      var front := attributes[..n];
      AttributesFront(front);
      assert front[0] == attributes[0] && front[1..] == attributes[1..][..n - 1];
      assert attributes[1..][n - 1] == attributes[n];
      Regroup(AttributeText(attributes[0]), AttributesText(front[1..]), last);
    }
  }

  /** A key, its quoted value and what follows. */
  lemma {:induction false} KeyRead(key: string, value: string, more: string, s: string, done: Attributes)
    requires Name(key) && Plain(value) && s == key + ("=\"" + (value + ("\"" + more)))
    ensures ReadTag(s, done, true) == ReadTag(more, done + [(key, value)], false)
  {
    var rest := "=\"" + (value + ("\"" + more));
    var v := value + ("\"" + more);
    NameRead(key, rest);
    Cut(key, rest);
    assert s[0] == key[0] && NameChar(s[0]);
    assert s[|key|] == rest[0] == '=' && s[|key| + 1] == rest[1] == '"';
    assert s[|key| + 2..] == v;
    UptoRead(value, '"', "\"" + more);
    Cut(value, "\"" + more);
    assert v[|value| + 1..] == more;
  }

  lemma {:induction false} OneAttribute(a: (string, string), more: string, done: Attributes)
    requires Name(a.0)
    ensures ReadTag(AttributeText(a) + more, done, false) == ReadTag(more, done + [(a.0, XmlEscape(a.1))], false)
  {
    var value := XmlEscape(a.1);
    EscapeRoundTrip(a.1);
    var s := AttributeText(a) + more;
    var later := a.0 + ("=\"" + (value + ("\"" + more)));
    hide XmlEscape, Plain;
    assert s == " " + later;
    assert s[0] == ' ' && s[1..] == later;
    KeyRead(a.0, value, more, later, done);
  }

  predicate TagEnd(tail: string) { tail != "" && (tail[0] == '>' || tail[0] == '/') }

  lemma {:induction false} AttributesRead(attributes: Attributes, tail: string, done: Attributes)
    requires Keys(attributes) && TagEnd(tail)
    ensures ReadTag(AttributesText(attributes) + tail, done, false) == ReadTag(tail, done + Shown(attributes), false)
    decreases attributes
  {
    if attributes == [] {
      assert AttributesText(attributes) + tail == tail && done + [] == done;
    } else {
      var a, rest := attributes[0], attributes[1..];
      var shown := (a.0, XmlEscape(a.1));
      AttributesFront(attributes);
      Regroup(AttributeText(a), AttributesText(rest), tail);
      assert Name(a.0);
      assert Keys(rest) by { KeysRest(attributes); }
      hide AttributesText, AttributeText, ReadTag, XmlEscape;
      OneAttribute(a, AttributesText(rest) + tail, done);
      AttributesRead(rest, tail, done + [shown]);
      Regroup(done, [shown], Shown(rest));
    }
  }

  lemma {:induction false} KeysRest(attributes: Attributes)
    requires Keys(attributes) && attributes != []
    ensures Keys(attributes[1..])
  {
  }

  // Tags.

  lemma {:induction false} AttributesStart(attributes: Attributes, tail: string)
    requires TagEnd(tail)
    ensures AttributesText(attributes) + tail != "" && !NameChar((AttributesText(attributes) + tail)[0])
  {
    if attributes != [] {
      AttributesFront(attributes);
      assert AttributeText(attributes[0])[0] == ' ';
    }
  }

  lemma {:induction false} OpeningParts(tag: string, attributes: Attributes, tail: string, rest: string)
    requires rest == AttributesText(attributes) + tail
    ensures OpeningTag(tag, attributes) + tail == "<" + (tag + rest)
  {
    hide AttributesText;
  }

  lemma {:induction false} NameFirst(s: string, tag: string, rest: string)
    requires s == "<" + (tag + rest) && Name(tag) && rest != "" && !NameChar(rest[0])
    ensures |s| > 1 && s[0] == '<' && s[1] != '/' && NameLength(s[1..]) == |tag|
    ensures s[1..][..|tag|] == tag && s[1..][|tag|..] == rest
  {
    hide NameLength;
    assert s[1..] == tag + rest && s[1] == tag[0] && NameChar(tag[0]);
    NameRead(tag, rest);
    Cut(tag, rest);
  }

  /** A printed start tag: its name is read, then its attributes. */
  lemma {:induction false} OpeningRead(tag: string, attributes: Attributes, tail: string, s: string, t: Option<Tag>)
    requires Name(tag) && Keys(attributes) && TagEnd(tail) && s == OpeningTag(tag, attributes) + tail
    requires t == ReadTag(tail, Shown(attributes), false)
    ensures |s| > 1 && s[0] == '<' && s[1] != '/' && NameLength(s[1..]) == |tag| && s[1..][..|tag|] == tag
    ensures ReadTag(s[1..][|tag|..], [], false) == t
  {
    var rest := AttributesText(attributes) + tail;
    hide OpeningTag, AttributesText, ReadTag, Shown, NameLength, NameChar;
    AttributesStart(attributes, tail);
    OpeningParts(tag, attributes, tail, rest);
    NameFirst(s, tag, rest);
    AttributesRead(attributes, tail, []);
    assert [] + Shown(attributes) == Shown(attributes);
  }

  lemma {:induction false} TailRead(rest: string, attributes: Attributes)
    ensures ReadTag("/>" + rest, attributes, false) == Some(Tag(attributes, true, rest))
    ensures ReadTag(">" + rest, attributes, false) == Some(Tag(attributes, false, rest))
  {
    assert ("/>" + rest)[2..] == rest && (">" + rest)[1..] == rest;
  }

  lemma {:induction false} EmptyTagRead(tag: string, attributes: Attributes, rest: string, open: seq<string>)
    requires Name(tag) && Keys(attributes)
    ensures ReadEvents(OpeningTag(tag, attributes) + ("/>" + rest), open) == Then(Empty(tag, Shown(attributes)), ReadEvents(rest, open))
  {
    var s := OpeningTag(tag, attributes) + ("/>" + rest);
    TailRead(rest, Shown(attributes));
    OpeningRead(tag, attributes, "/>" + rest, s, Some(Tag(Shown(attributes), true, rest)));
    hide OpeningTag, ReadTag, NameLength;
  }

  lemma {:induction false} StartTagRead(tag: string, attributes: Attributes, rest: string, open: seq<string>)
    requires Name(tag) && Keys(attributes)
    ensures ReadEvents(OpeningTag(tag, attributes) + (">" + rest), open) == Then(Start(tag, Shown(attributes)), ReadEvents(rest, open + [tag]))
  {
    var s := OpeningTag(tag, attributes) + (">" + rest);
    TailRead(rest, Shown(attributes));
    OpeningRead(tag, attributes, ">" + rest, s, Some(Tag(Shown(attributes), false, rest)));
    hide OpeningTag, ReadTag, NameLength;
  }

  lemma {:induction false} EndTagRead(tag: string, rest: string, open: seq<string>)
    requires Name(tag)
    ensures ReadEvents(ClosingTag(tag) + rest, open + [tag]) == Then(End, ReadEvents(rest, open))
  {
    var s, name := ClosingTag(tag) + rest, tag + (">" + rest);
    assert s == "</" + name;
    assert s[0] == '<' && s[1] == '/' && s[2..] == name;
    NameRead(tag, ">" + rest);
    Cut(tag, ">" + rest);
    assert name[|tag| + 1..] == rest && name[|tag|] == '>';
    assert (open + [tag])[..|open + [tag]| - 1] == open;
  }

  lemma {:induction false} WordsRead(text: string, rest: string, open: seq<string>)
    requires text != "" && rest != "" && rest[0] == '<'
    ensures ReadEvents(XmlEscape(text) + rest, open) == Then(XmlParse.Text(text), ReadEvents(rest, open))
  {
    var e := XmlEscape(text);
    var s := e + rest;
    EscapeRoundTrip(text);
    EscapeIsOnePass(text);
    EscapedLength(text);
    assert s[0] == e[0] != '<';
    UptoRead(e, '<', rest);
    Cut(e, rest);
  }

  // Trees.

  /** The document a tree prints as: its text comes before its children. */
  function ItemOf(t: Tree): Item
    decreases t
  {
    if t.children == [] && t.text == "" then SelfClosed(t.tag, Shown(t.attributes))
    else Element(t.tag, Shown(t.attributes), (if t.text == "" then [] else [Words(t.text)]) + ItemsOf(t.children))
  }

  function ItemsOf(ts: seq<Tree>): seq<Item>
    decreases ts
  {
    if ts == [] then [] else [ItemOf(ts[0])] + ItemsOf(ts[1..])
  }

  /** All tags and keys are names. */
  predicate Named(t: Tree)
    decreases t
  {
    Name(t.tag) && Keys(t.attributes) && AllNamed(t.children)
  }

  predicate AllNamed(ts: seq<Tree>)
    decreases ts
  {
    ts == [] || (Named(ts[0]) && AllNamed(ts[1..]))
  }

  function Behind(events: seq<Event>, later: Option<seq<Event>>): Option<seq<Event>>
  {
    if later.Some? then Some(events + later.value) else None
  }

  lemma {:induction false} BehindBoth(a: seq<Event>, b: seq<Event>, later: Option<seq<Event>>)
    ensures Behind(a, Behind(b, later)) == Behind(a + b, later)
  {
    if later.Some? { Regroup(a, b, later.value); }
  }

  lemma {:induction false} BehindNothing(later: Option<seq<Event>>)
    ensures Behind([], later) == later
  {
    if later.Some? { assert [] + later.value == later.value; }
  }

  lemma {:induction false} BehindOne(e: Event, later: Option<seq<Event>>)
    ensures Then(e, later) == Behind([e], later)
  {
  }

  lemma {:induction false} PrintStarts(t: Tree)
    ensures Print(t) != "" && Print(t)[0] == '<'
  {
    assert OpeningTag(t.tag, t.attributes)[0] == '<';
  }

  lemma {:induction false} InnerStarts(ts: seq<Tree>, tag: string, rest: string)
    ensures PrintAll(ts) + (ClosingTag(tag) + rest) != "" && (PrintAll(ts) + (ClosingTag(tag) + rest))[0] == '<'
  {
    if ts != [] {
      PrintStarts(ts[0]);
      assert PrintAll(ts)[0] == Print(ts[0])[0];
    }
  }

  lemma {:induction false} PrintParts(t: Tree, rest: string, inner: string)
    requires !(t.children == [] && t.text == "") && inner == PrintAll(t.children) + (ClosingTag(t.tag) + rest)
    ensures Print(t) + rest == OpeningTag(t.tag, t.attributes) + (">" + (XmlEscape(t.text) + inner))
  {
    hide OpeningTag, ClosingTag, PrintAll, XmlEscape;
  }

  /** Reading a printed tree gives exactly its events, whatever follows. */
  lemma {:induction false} TreeRead(t: Tree, rest: string, open: seq<string>)
    requires Named(t)
    ensures ReadEvents(Print(t) + rest, open) == Behind(Events(ItemOf(t)), ReadEvents(rest, open))
    decreases t, 0
  {
    if t.children == [] && t.text == "" {
      EmptyTagRead(t.tag, t.attributes, rest, open);
      Regroup(OpeningTag(t.tag, t.attributes), "/>", rest);
      BehindOne(Empty(t.tag, Shown(t.attributes)), ReadEvents(rest, open));
    } else {
      ElementRead(t, rest, open);
    }
  }

  lemma {:induction false} TextRead(text: string, inner: string, open: seq<string>, words: seq<Event>)
    requires inner != "" && inner[0] == '<' && words == if text == "" then [] else [XmlParse.Text(text)]
    ensures ReadEvents(XmlEscape(text) + inner, open) == Behind(words, ReadEvents(inner, open))
  {
    if text == "" {
      EscapeIsOnePass("");
      assert XmlEscape(text) == "";
      assert "" + inner == inner;
      BehindNothing(ReadEvents(inner, open));
    } else {
      WordsRead(text, inner, open);
      BehindOne(XmlParse.Text(text), ReadEvents(inner, open));
    }
  }

  lemma {:induction false} ElementEvents(t: Tree, words: seq<Event>)
    requires !(t.children == [] && t.text == "") && words == if t.text == "" then [] else [XmlParse.Text(t.text)]
    ensures Events(ItemOf(t)) == [Start(t.tag, Shown(t.attributes))] + (words + (AllEvents(ItemsOf(t.children)) + [End]))
  {
    var items := ItemsOf(t.children);
    var content := (if t.text == "" then [] else [Words(t.text)]) + items;
    assert AllEvents(content) == words + AllEvents(items) by {
      if t.text == "" {
        assert content == items && [] + AllEvents(items) == AllEvents(items);
      } else {
        assert content[0] == Words(t.text) && content[1..] == items;
        assert Events(Words(t.text)) == words;
      }
    }
    Regroup([Start(t.tag, Shown(t.attributes))], words + AllEvents(items), [End]);
    Regroup(words, AllEvents(items), [End]);
  }

  lemma {:induction false} ElementRead(t: Tree, rest: string, open: seq<string>)
    requires Named(t) && !(t.children == [] && t.text == "")
    ensures ReadEvents(Print(t) + rest, open) == Behind(Events(ItemOf(t)), ReadEvents(rest, open))
    decreases t.children, 2
  {
    var inner := PrintAll(t.children) + (ClosingTag(t.tag) + rest);
    var here := open + [t.tag];
    var start := Start(t.tag, Shown(t.attributes));
    var words := if t.text == "" then [] else [XmlParse.Text(t.text)];
    var kids := AllEvents(ItemsOf(t.children));
    var last := ReadEvents(rest, open);
    PrintParts(t, rest, inner);
    ElementEvents(t, words);
    InnerStarts(t.children, t.tag, rest);
    hide ReadEvents, Print, PrintAll, OpeningTag, ClosingTag, XmlEscape, Events, AllEvents, ItemOf, ItemsOf, Behind, Then;
    StartTagRead(t.tag, t.attributes, XmlEscape(t.text) + inner, open);
    TextRead(t.text, inner, here, words);
    AllRead(t.children, ClosingTag(t.tag) + rest, here);
    EndTagRead(t.tag, rest, open);
    BehindOne(End, last);
    BehindBoth(kids, [End], last);
    BehindBoth(words, kids + [End], last);
    BehindOne(start, Behind(words + (kids + [End]), last));
    BehindBoth([start], words + (kids + [End]), last);
  }

  lemma {:induction false} AllRead(ts: seq<Tree>, rest: string, open: seq<string>)
    requires AllNamed(ts)
    ensures ReadEvents(PrintAll(ts) + rest, open) == Behind(AllEvents(ItemsOf(ts)), ReadEvents(rest, open))
    decreases ts, 1
  {
    if ts == [] {
      assert PrintAll(ts) + rest == rest && AllEvents(ItemsOf(ts)) == [];
      BehindNothing(ReadEvents(rest, open));
    } else {
      SomeRead(ts, rest, open);
    }
  }

  lemma {:induction false} SomeRead(ts: seq<Tree>, rest: string, open: seq<string>)
    requires AllNamed(ts) && ts != []
    ensures ReadEvents(PrintAll(ts) + rest, open) == Behind(AllEvents(ItemsOf(ts)), ReadEvents(rest, open))
    decreases ts, 0
  {
    var t, later := ts[0], ts[1..];
    assert ItemsOf(ts)[0] == ItemOf(t) && ItemsOf(ts)[1..] == ItemsOf(later);
    assert AllEvents(ItemsOf(ts)) == Events(ItemOf(t)) + AllEvents(ItemsOf(later));
    assert PrintAll(ts) == Print(t) + PrintAll(later);
    Regroup(Print(t), PrintAll(later), rest);
    hide ReadEvents, Print, PrintAll, Events, AllEvents, ItemOf, ItemsOf, Behind;
    TreeRead(t, PrintAll(later) + rest, open);
    AllRead(later, rest, open);
    BehindBoth(Events(ItemOf(t)), AllEvents(ItemsOf(later)), ReadEvents(rest, open));
  }

  /** A printed tree reads as exactly its events. */
  lemma {:induction false} PrintRead(t: Tree)
    requires Named(t)
    ensures ReadEvents(Print(t), []) == Some(Events(ItemOf(t)))
  {
    TreeRead(t, "", []);
    assert Print(t) + "" == Print(t);
    assert Events(ItemOf(t)) + [] == Events(ItemOf(t));
  }

  // The tree that a printed tree is parsed to.

  /** With values as they are printed and texts trimmed, all the way down. */
  function Reparsed(t: Tree): Tree
    decreases t
  {
    Tree(t.tag, Trim(t.text), Shown(t.attributes), AllReparsed(t.children))
  }

  function AllReparsed(ts: seq<Tree>): (r: seq<Tree>)
    ensures |r| == |ts|
    decreases ts
  {
    if ts == [] then [] else [Reparsed(ts[0])] + AllReparsed(ts[1..])
  }

  lemma {:induction false} TreeOfItem(t: Tree)
    ensures IsElement(ItemOf(t)) && TreeOf(ItemOf(t)) == Reparsed(t)
    decreases t, 1
  {
    TreesOfItems(t.children);
    if t.children != [] || t.text != "" { ContentOf(t); }
  }

  lemma {:induction false} ContentOf(t: Tree)
    requires !(t.children == [] && t.text == "") && Trees(ItemsOf(t.children)) == AllReparsed(t.children)
    ensures TextAfter("", ItemOf(t).content) == Trim(t.text) && Trees(ItemOf(t).content) == AllReparsed(t.children)
  {
    var items := ItemsOf(t.children);
    OnlyElements(t.children, Trim(t.text));
    if t.text == "" {
      assert [] + items == items;
    } else {
      assert ([Words(t.text)] + items)[0] == Words(t.text) && ([Words(t.text)] + items)[1..] == items;
    }
  }

  lemma {:induction false} OnlyElements(ts: seq<Tree>, text: string)
    ensures TextAfter(text, ItemsOf(ts)) == text
    decreases ts
  {
    if ts != [] {
      assert ItemsOf(ts)[0] == ItemOf(ts[0]) && ItemsOf(ts)[1..] == ItemsOf(ts[1..]);
      OnlyElements(ts[1..], text);
    }
  }

  lemma {:induction false} TreesOfItems(ts: seq<Tree>)
    ensures Trees(ItemsOf(ts)) == AllReparsed(ts)
    decreases ts, 0
  {
    if ts != [] {
      assert ItemsOf(ts)[0] == ItemOf(ts[0]) && ItemsOf(ts)[1..] == ItemsOf(ts[1..]);
      TreeOfItem(ts[0]);
      TreesOfItems(ts[1..]);
    }
  }

  /**
   * Printing a tree and parsing the text lays out a tree again, in any registry: the
   * same one but for texts that were not trimmed and values with special characters.
   */
  lemma {:induction false} PrintParsed(p: Parser, t: Tree)
    requires Named(t) && Below(p.nodes, p.nextId)
    ensures ReadEvents(Print(t), []).Some?
    ensures AddsTree(p, Feed(p, ReadEvents(Print(t), []).value), Reparsed(t))
  {
    PrintRead(t);
    TreeOfItem(t);
    TreeRuns(p, ItemOf(t));
  }

  /** So what a registered tree prints as reads as exactly its events. */
  lemma {:induction false} RenderedRead(nodes: Nodes, nextId: nat, at: nat, t: Tree)
    requires Ascending(nodes, nextId) && Laid(nodes, at, t) && Named(t)
    ensures Render(nodes, nextId, at).Rendered?
    ensures ReadEvents(Render(nodes, nextId, at).text, []) == Some(Events(ItemOf(t)))
  {
    LaidPrints(nodes, nextId, at, t);
    PrintRead(t);
  }

  /** No text has white space around it, and no attribute value one of the five characters. */
  predicate Settled(t: Tree)
    decreases t
  {
    && Trim(t.text) == t.text && AllUnspecial(t.attributes)
    && AllSettled(t.children)
  }

  predicate AllSettled(ts: seq<Tree>)
    decreases ts
  {
    ts == [] || (Settled(ts[0]) && AllSettled(ts[1..]))
  }

  lemma {:induction false} ShownSame(attributes: Attributes)
    ensures Shown(attributes) == attributes <==> AllUnspecial(attributes)
  {
    if attributes != [] {
      var rest := attributes[1..];
      ShownSame(rest);
      EscapeUnchanged(attributes[0].1);
      assert attributes == [attributes[0]] + rest;
      assert Shown(attributes)[0] == (attributes[0].0, XmlEscape(attributes[0].1)) && Shown(attributes)[1..] == Shown(rest);
      FirstAndRest(attributes);
    }
  }

  predicate AllUnspecial(attributes: Attributes) { forall i :: 0 <= i < |attributes| ==> Unspecial(attributes[i].1) }

  lemma {:induction false} FirstAndRest(attributes: Attributes)
    requires attributes != []
    ensures AllUnspecial(attributes) <==> Unspecial(attributes[0].1) && AllUnspecial(attributes[1..])
  {
    var rest := attributes[1..];
    if Unspecial(attributes[0].1) && AllUnspecial(rest) {
      forall i | 0 <= i < |attributes| ensures Unspecial(attributes[i].1) {
        if i > 0 { assert attributes[i] == rest[i - 1]; }
      }
    }
    if AllUnspecial(attributes) {
      forall i | 0 <= i < |rest| ensures Unspecial(rest[i].1) { assert rest[i] == attributes[i + 1]; }
    }
  }

  /** It is the same tree exactly when the tree is settled. */
  lemma {:induction false} SameTree(t: Tree)
    ensures Reparsed(t) == t <==> Settled(t)
    decreases t, 1
  {
    ShownSame(t.attributes);
    SameTrees(t.children);
  }

  lemma {:induction false} SameTrees(ts: seq<Tree>)
    ensures AllReparsed(ts) == ts <==> AllSettled(ts)
    decreases ts, 0
  {
    if ts != [] {
      SameTree(ts[0]);
      SameTrees(ts[1..]);
      assert ts == [ts[0]] + ts[1..];
      assert AllReparsed(ts)[0] == Reparsed(ts[0]) && AllReparsed(ts)[1..] == AllReparsed(ts[1..]);
    }
  }
}
