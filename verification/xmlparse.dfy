/** Building a tree of numbered nodes in a shared registry from a stream of XML events. */
module XmlParse {

  import opened Sequences
  import opened Text

  type Attributes = seq<(string, string)>

  datatype Node = Node(tag: string, text: string, attributes: Attributes, children: seq<nat>)

  type Nodes = map<nat, Node>

  /** What the XML reader delivers; text is already unescaped. */
  datatype Event =
    | Start(tag: string, attributes: Attributes)
    | End
    | Empty(tag: string, attributes: Attributes)
    | Text(text: string)
    | CData(text: string)
    | Other

  /** An open element and the handles of its children so far. */
  datatype Frame = Frame(handle: nat, children: seq<nat>)

  datatype Root = NoRoot | Root(handle: nat)

  datatype Parser = Parser(nodes: Nodes, nextId: nat, stack: seq<Frame>, root: Root)

  // One event.

  function Joined(text: string, more: string): string
  {
    if text == "" then more else text + " " + more
  }

  function Top(p: Parser): Frame
    requires p.stack != []
  {
    p.stack[|p.stack| - 1]
  }

  function Pop(p: Parser): Parser
    requires p.stack != []
  {
    p.(stack := p.stack[..|p.stack| - 1])
  }

  /** A finished element becomes a child of the open element, or the root. */
  function Attach(p: Parser, handle: nat): Parser
  {
    if p.stack == [] then p.(root := Root(handle))
    else p.(stack := Pop(p).stack + [Frame(Top(p).handle, Top(p).children + [handle])])
  }

  function Insert(p: Parser, tag: string, attributes: Attributes): Parser
  {
    p.(nodes := p.nodes[p.nextId := Node(tag, "", attributes, [])], nextId := p.nextId + 1)
  }

  function AddText(p: Parser, more: string): Parser
  {
    if p.stack == [] || Top(p).handle !in p.nodes then p
    else
      var h := Top(p).handle;
      p.(nodes := p.nodes[h := p.nodes[h].(text := Joined(p.nodes[h].text, more))])
  }

  function Close(p: Parser): Parser
  {
    if p.stack == [] then p
    else
      var f := Top(p);
      var nodes := if f.handle in p.nodes then p.nodes[f.handle := p.nodes[f.handle].(children := f.children)] else p.nodes;
      Attach(Pop(p).(nodes := nodes), f.handle)
  }

  function Step(p: Parser, e: Event): Parser
  {
    match e
    case Start(tag, attributes) =>
      Insert(p, tag, attributes).(stack := p.stack + [Frame(p.nextId, [])])
    case End => Close(p)
    case Empty(tag, attributes) => Attach(Insert(p, tag, attributes), p.nextId)
    case Text(t) => if Trim(t) == "" then p else AddText(p, Trim(t))
    case CData(t) => AddText(p, t)
    case Other => p
  }

  function Feed(p: Parser, events: seq<Event>): Parser
    decreases events
  {
    if events == [] then p else Feed(Step(p, events[0]), events[1..])
  }

  lemma {:induction false} FeedAppend(p: Parser, a: seq<Event>, b: seq<Event>)
    ensures Feed(p, a + b) == Feed(Feed(p, a), b)
    decreases a
  {
    if a == [] {
      assert a + b == b;
    } else {
      assert (a + b)[1..] == a[1..] + b;
      FeedAppend(Step(p, a[0]), a[1..], b);
    }
  }

  lemma {:induction false} FeedOne(p: Parser, e: Event)
    ensures Feed(p, [e]) == Step(p, e)
  {
    assert Feed(Step(p, e), [e][1..]) == Step(p, e);
  }

  // The document a well-nested event stream describes.

  datatype Item =
    | Element(tag: string, attributes: Attributes, content: seq<Item>)
    | SelfClosed(tag: string, attributes: Attributes)
    | Words(text: string)
    | Raw(text: string)
    | Ignored

  datatype Tree = Tree(tag: string, text: string, attributes: Attributes, children: seq<Tree>)

  function Events(item: Item): seq<Event>
    decreases item
  {
    match item
    case Element(tag, attributes, content) => [Start(tag, attributes)] + AllEvents(content) + [End]
    case SelfClosed(tag, attributes) => [Empty(tag, attributes)]
    case Words(t) => [Text(t)]
    case Raw(t) => [CData(t)]
    case Ignored => [Other]
  }

  function AllEvents(items: seq<Item>): seq<Event>
    decreases items
  {
    if items == [] then [] else Events(items[0]) + AllEvents(items[1..])
  }

  /** Text and character data join the text so far with a space; blank text adds nothing. */
  function TextWith(text: string, item: Item): string
  {
    match item
    case Words(t) => if Trim(t) == "" then text else Joined(text, Trim(t))
    case Raw(t) => Joined(text, t)
    case _ => text
  }

  /** The text of an element whose text was `text` before these items of its content. */
  function TextAfter(text: string, items: seq<Item>): string
    decreases items
  {
    if items == [] then text
    else TextAfter(TextWith(text, items[0]), items[1..])
  }

  /** The pieces of text in a content: each text trimmed unless it is blank, and character data as it is. */
  function Pieces(items: seq<Item>): seq<string>
    decreases items
  {
    if items == [] then []
    else if items[0].Words? && Trim(items[0].text) != "" then [Trim(items[0].text)] + Pieces(items[1..])
    else if items[0].Raw? then [items[0].text] + Pieces(items[1..])
    else Pieces(items[1..])
  }

  /** The pieces in a row, with one space between neighbours. */
  function Spaced(pieces: seq<string>): string
  {
    if pieces == [] then "" else if |pieces| == 1 then pieces[0] else pieces[0] + " " + Spaced(pieces[1..])
  }

  /** The pieces from the first that is not empty on. */
  function FromFirst(pieces: seq<string>): seq<string>
  {
    if pieces != [] && pieces[0] == "" then FromFirst(pieces[1..]) else pieces
  }

  lemma {:induction false} SpacedMore(text: string, pieces: seq<string>)
    requires pieces != []
    ensures Spaced([text] + pieces) == text + " " + Spaced(pieces)
  {
    assert ([text] + pieces)[1..] == pieces;
  }

  lemma {:induction false} SpacedFront(a: string, b: string, pieces: seq<string>)
    ensures Spaced([a + " " + b] + pieces) == a + " " + Spaced([b] + pieces)
  {
    if pieces == [] {
      assert [a + " " + b] + pieces == [a + " " + b] && [b] + pieces == [b];
    } else {
      SpacedMore(a + " " + b, pieces);
      SpacedMore(b, pieces);
    }
  }

  /** To a text that is not empty, every piece is added behind a space. */
  lemma {:induction false} TextGrows(text: string, items: seq<Item>)
    requires text != ""
    ensures TextAfter(text, items) == Spaced([text] + Pieces(items))
    decreases items
  {
    if items == [] {
      assert [text] + [] == [text];
    } else {
      var item, rest := items[0], items[1..];
      TextGrows(TextWith(text, item), rest);
      var piece := if item.Words? then Trim(item.text) else if item.Raw? then item.text else "";
      if Pieces(items) != Pieces(rest) || item.Raw? {
        SpacedFront(text, piece, Pieces(rest));
        assert [piece] + Pieces(rest) == Pieces(items);
        SpacedMore(text, Pieces(items));
      }
    }
  }

  /**
   * The text of an element is its pieces with one space between neighbours; empty
   * character data at the beginning adds nothing, and later on a space.
   */
  lemma {:induction false} TextIsSpaced(items: seq<Item>)
    ensures TextAfter("", items) == Spaced(FromFirst(Pieces(items)))
    decreases items
  {
    if items != [] {
      var item, rest := items[0], items[1..];
      var text := TextWith("", item);
      if text == "" {
        TextIsSpaced(rest);
        if item.Raw? { assert Pieces(items)[1..] == Pieces(rest); }
      } else {
        TextGrows(text, rest);
      }
    }
  }

  /** Without empty character data that is all pieces. */
  lemma {:induction false} NoEmptyPieces(pieces: seq<string>)
    requires forall i :: 0 <= i < |pieces| ==> pieces[i] != ""
    ensures FromFirst(pieces) == pieces
  {
  }

  predicate IsElement(item: Item) { item.Element? || item.SelfClosed? }

  function TreeOf(item: Item): Tree
    requires IsElement(item)
    decreases item
  {
    match item
    case Element(tag, attributes, content) => Tree(tag, TextAfter("", content), attributes, Trees(content))
    case SelfClosed(tag, attributes) => Tree(tag, "", attributes, [])
  }

  function Trees(items: seq<Item>): seq<Tree>
    decreases items
  {
    if items == [] then []
    else (if IsElement(items[0]) then [TreeOf(items[0])] else []) + Trees(items[1..])
  }

  // Trees laid out in the registry: a node, then its children's trees one after the other.

  function Size(t: Tree): nat
    decreases t
  {
    1 + Sizes(t.children)
  }

  function Sizes(ts: seq<Tree>): nat
    decreases ts
  {
    if ts == [] then 0 else Size(ts[0]) + Sizes(ts[1..])
  }

  /** The handles of trees laid out one after the other from `at` on. */
  function Handles(at: nat, ts: seq<Tree>): (r: seq<nat>)
    ensures |r| == |ts|
    decreases ts
  {
    if ts == [] then [] else [at] + Handles(at + Size(ts[0]), ts[1..])
  }

  predicate Laid(nodes: Nodes, at: nat, t: Tree)
    decreases t
  {
    && at in nodes && nodes[at] == Node(t.tag, t.text, t.attributes, Handles(at + 1, t.children))
    && AllLaid(nodes, at + 1, t.children)
  }

  predicate AllLaid(nodes: Nodes, at: nat, ts: seq<Tree>)
    decreases ts
  {
    ts == [] || (Laid(nodes, at, ts[0]) && AllLaid(nodes, at + Size(ts[0]), ts[1..]))
  }

  lemma {:induction false} FrontTree(nodes: Nodes, at: nat, t: Tree, ts: seq<Tree>)
    ensures Sizes([t] + ts) == Size(t) + Sizes(ts)
    ensures Handles(at, [t] + ts) == [at] + Handles(at + Size(t), ts)
    ensures AllLaid(nodes, at, [t] + ts) <==> Laid(nodes, at, t) && AllLaid(nodes, at + Size(t), ts)
  {
    assert ([t] + ts)[0] == t && ([t] + ts)[1..] == ts;
  }

  /** Two registries agree on the handles from lo up to hi. */
  predicate Agree(a: Nodes, b: Nodes, lo: nat, hi: nat)
  {
    forall h :: lo <= h < hi ==> (h in a <==> h in b) && (h in a ==> a[h] == b[h])
  }

  lemma {:induction false} LaidFrame(a: Nodes, b: Nodes, at: nat, t: Tree)
    requires Laid(a, at, t) && Agree(a, b, at, at + Size(t))
    ensures Laid(b, at, t)
    decreases t
  {
    AllLaidFrame(a, b, at + 1, t.children);
  }

  lemma {:induction false} AllLaidFrame(a: Nodes, b: Nodes, at: nat, ts: seq<Tree>)
    requires AllLaid(a, at, ts) && Agree(a, b, at, at + Sizes(ts))
    ensures AllLaid(b, at, ts)
    decreases ts
  {
    if ts != [] {
      LaidFrame(a, b, at, ts[0]);
      AllLaidFrame(a, b, at + Size(ts[0]), ts[1..]);
    }
  }

  // What the parser does on well-nested input.

  /** All handles in use are below the next one. */
  predicate Below(nodes: Nodes, nextId: nat)
  {
    forall h :: h in nodes ==> h < nextId
  }

  /** From p to q one finished tree was laid out at the next handle and attached. */
  predicate AddsTree(p: Parser, q: Parser, t: Tree)
  {
    && q.nextId == p.nextId + Size(t) && Below(q.nodes, q.nextId)
    && Agree(p.nodes, q.nodes, 0, p.nextId) && Laid(q.nodes, p.nextId, t)
    && q.stack == Attach(p, p.nextId).stack && q.root == Attach(p, p.nextId).root
  }

  /** The open element: the top of the stack, present in the registry. */
  predicate Open(p: Parser)
  {
    p.stack != [] && Top(p).handle in p.nodes && Below(p.nodes, p.nextId)
  }

  /** From p to q the open element gained text and children, and nothing older changed. */
  predicate AddsContent(p: Parser, q: Parser, text: string, ts: seq<Tree>)
    requires Open(p)
  {
    && q.nextId == p.nextId + Sizes(ts) && Below(q.nodes, q.nextId)
    && AllLaid(q.nodes, p.nextId, ts)
    && (forall h :: 0 <= h < p.nextId && h != Top(p).handle ==>
          (h in p.nodes <==> h in q.nodes) && (h in p.nodes ==> p.nodes[h] == q.nodes[h]))
    && Top(p).handle in q.nodes && q.nodes[Top(p).handle] == p.nodes[Top(p).handle].(text := text)
    && q.stack == Pop(p).stack + [Frame(Top(p).handle, Top(p).children + Handles(p.nextId, ts))]
    && q.root == p.root
  }

  lemma {:induction false} SelfClosedRuns(p: Parser, item: Item)
    requires item.SelfClosed? && Below(p.nodes, p.nextId)
    ensures AddsTree(p, Feed(p, Events(item)), TreeOf(item))
  {
    FeedOne(p, Events(item)[0]);
    assert Sizes([]) == 0;
  }

  /** An element's events add exactly its tree, whatever is open and already registered. */
  lemma {:induction false} ElementRuns(p: Parser, item: Item)
    requires item.Element? && Below(p.nodes, p.nextId)
    ensures AddsTree(p, Feed(p, Events(item)), TreeOf(item))
    decreases item, 0
  {
    var begin := [Start(item.tag, item.attributes)];
    var content := AllEvents(item.content);
    FeedAppend(p, begin + content, [End]);
    FeedAppend(p, begin, content);
    FeedOne(p, begin[0]);
    var p1 := Step(p, begin[0]);
    var p2 := Feed(p1, content);
    FeedOne(p2, End);
    ContentRuns(p1, item.content);
    Closing(p, p1, p2, item.tag, item.attributes, TextAfter("", item.content), Trees(item.content));
  }

  lemma {:induction false} Closing(p: Parser, p1: Parser, p2: Parser, tag: string, attributes: Attributes, text: string, ts: seq<Tree>)
    requires Below(p.nodes, p.nextId) && p1 == Step(p, Start(tag, attributes))
    requires Open(p1) && AddsContent(p1, p2, text, ts)
    ensures AddsTree(p, Close(p2), Tree(tag, text, attributes, ts))
  {
    var h := p.nextId;
    var q := Close(p2);
    assert p1.stack == p.stack + [Frame(h, [])] && p1.nextId == h + 1;
    assert Pop(p1).stack == p.stack;
    assert [] + Handles(h + 1, ts) == Handles(h + 1, ts);
    assert Top(p2) == Frame(h, Handles(h + 1, ts)) && Pop(p2).stack == p.stack;
    assert p2.nodes[h] == Node(tag, text, attributes, []);
    Finished(p2.nodes, q.nodes, h, Tree(tag, text, attributes, ts));
  }

  /** Setting the children of a node whose children are laid out behind it completes its tree. */
  lemma {:induction false} Finished(a: Nodes, b: Nodes, h: nat, t: Tree)
    requires h in a && a[h] == Node(t.tag, t.text, t.attributes, []) && AllLaid(a, h + 1, t.children)
    requires b == a[h := a[h].(children := Handles(h + 1, t.children))]
    ensures Laid(b, h, t)
  {
    AllLaidFrame(a, b, h + 1, t.children);
  }

  lemma {:induction false} TreeRuns(p: Parser, item: Item)
    requires IsElement(item) && Below(p.nodes, p.nextId)
    ensures AddsTree(p, Feed(p, Events(item)), TreeOf(item))
    decreases item, 1
  {
    if item.Element? { ElementRuns(p, item); } else { SelfClosedRuns(p, item); }
  }

  lemma {:induction false} NothingAdded(p: Parser)
    requires Open(p)
    ensures AddsContent(p, p, p.nodes[Top(p).handle].text, [])
  {
    assert Top(p).children + [] == Top(p).children;
    assert Frame(Top(p).handle, Top(p).children) == Top(p);
    assert Pop(p).stack + [Top(p)] == p.stack;
  }

  /** From p to q only the open element's text changed. */
  predicate SetsText(p: Parser, q: Parser, text: string)
    requires Open(p)
  {
    q == p.(nodes := p.nodes[Top(p).handle := p.nodes[Top(p).handle].(text := text)])
  }

  lemma {:induction false} TextRuns(p: Parser, q: Parser, item: Item)
    requires Open(p) && !IsElement(item) && q == Feed(p, Events(item))
    ensures SetsText(p, q, TextWith(p.nodes[Top(p).handle].text, item)) && Open(q)
  {
    FeedOne(p, Events(item)[0]);
    var h := Top(p).handle;
    assert p.nodes[h := p.nodes[h].(text := p.nodes[h].text)] == p.nodes;
  }

  lemma {:induction false} TextThenContent(p: Parser, p1: Parser, q: Parser, text: string, ts: seq<Tree>)
    requires Open(p) && Open(p1) && AddsContent(p1, q, text, ts)
    requires SetsText(p, p1, p1.nodes[Top(p1).handle].text)
    ensures AddsContent(p, q, text, ts)
  {
  }

  /** The content of an element gives it its text and its children's trees, in order. */
  lemma {:induction false} ContentRuns(p: Parser, items: seq<Item>)
    requires Open(p)
    ensures AddsContent(p, Feed(p, AllEvents(items)), TextAfter(p.nodes[Top(p).handle].text, items), Trees(items))
    decreases items
  {
    if items == [] {
      NothingAdded(p);
    } else {
      var item, rest := items[0], items[1..];
      FeedAppend(p, Events(item), AllEvents(rest));
      var p1 := Feed(p, Events(item));
      var text := p.nodes[Top(p).handle].text;
      if IsElement(item) {
        TreeRuns(p, item);
        AttachedOpen(p, p1, TreeOf(item));
        ContentRuns(p1, rest);
        TreeThenContent(p, p1, Feed(p1, AllEvents(rest)), TreeOf(item), TextAfter(text, rest), Trees(rest));
      } else {
        TextRuns(p, p1, item);
        ContentRuns(p1, rest);
        assert Trees(items) == Trees(rest);
        TextThenContent(p, p1, Feed(p1, AllEvents(rest)), TextAfter(text, items), Trees(rest));
      }
    }
  }

  lemma {:induction false} AttachedOpen(p: Parser, q: Parser, t: Tree)
    requires Open(p) && AddsTree(p, q, t)
    ensures Open(q) && Top(q) == Frame(Top(p).handle, Top(p).children + [p.nextId])
    ensures Pop(q).stack == Pop(p).stack && q.root == p.root
    ensures q.nodes[Top(q).handle] == p.nodes[Top(p).handle]
  {
  }

  lemma {:induction false} TreeThenContent(p: Parser, p1: Parser, q: Parser, t: Tree, text: string, ts: seq<Tree>)
    requires Open(p) && AddsTree(p, p1, t) && Open(p1) && AddsContent(p1, q, text, ts)
    ensures AddsContent(p, q, text, [t] + ts)
  {
    AttachedOpen(p, p1, t);
    FrontTree(q.nodes, p.nextId, t, ts);
    Regroup(Top(p).children, [p.nextId], Handles(p1.nextId, ts));
    LaidFrame(p1.nodes, q.nodes, p.nextId, t);
  }

  // Whole documents.

  /** From p to q, outside any element, all the trees were laid out; the last is the root. */
  predicate AddsForest(p: Parser, q: Parser, ts: seq<Tree>)
  {
    && q.nextId == p.nextId + Sizes(ts) && Below(q.nodes, q.nextId)
    && Agree(p.nodes, q.nodes, 0, p.nextId) && AllLaid(q.nodes, p.nextId, ts)
    && q.stack == []
    && q.root == if ts == [] then p.root else Root(Handles(p.nextId, ts)[|ts| - 1])
  }

  lemma {:induction false} ForestRuns(p: Parser, items: seq<Item>)
    requires p.stack == [] && Below(p.nodes, p.nextId)
    ensures AddsForest(p, Feed(p, AllEvents(items)), Trees(items))
    decreases items
  {
    if items != [] {
      var item, rest := items[0], items[1..];
      FeedAppend(p, Events(item), AllEvents(rest));
      var p1 := Feed(p, Events(item));
      if IsElement(item) {
        TreeRuns(p, item);
        ForestRuns(p1, rest);
        TreeThenForest(p, p1, Feed(p1, AllEvents(rest)), TreeOf(item), Trees(rest));
      } else {
        NoElementRuns(p, item);
        ForestRuns(p1, rest);
        assert Trees(items) == Trees(rest);
      }
    }
  }

  /** Outside any element, text and the rest are dropped. */
  lemma {:induction false} NoElementRuns(p: Parser, item: Item)
    requires p.stack == [] && !IsElement(item)
    ensures Feed(p, Events(item)) == p
  {
    FeedOne(p, Events(item)[0]);
  }

  lemma {:induction false} TreeThenForest(p: Parser, p1: Parser, q: Parser, t: Tree, ts: seq<Tree>)
    requires p.stack == [] && AddsTree(p, p1, t)
    requires AddsForest(p1, q, ts)
    ensures AddsForest(p, q, [t] + ts)
  {
    FrontTree(q.nodes, p.nextId, t, ts);
    LaidFrame(p1.nodes, q.nodes, p.nextId, t);
  }
}
