/** The shared registry of XML nodes and the three operations on it. */
module XmlRegistry {

  import opened Text
  import opened XmlParse
  import opened XmlHeap
  import opened XmlPrint

  datatype Parsed = Handle(handle: nat) | Malformed | NoElement

  /** What a parse answers once the reader is at its end, or has failed. */
  function Answer(p: Parser, failed: bool): Parsed
  {
    if failed then Malformed else if p.root.NoRoot? then NoElement else Handle(p.root.handle)
  }

  class Registry {

    var nodes: Nodes
    var nextId: nat
    ghost var owners: Owners

    ghost predicate Valid()
      reads this
    {
      Owned(nodes, nextId, owners)
    }

    constructor ()
      ensures Valid() && nodes == map[] && nextId == 1
    {
      nodes, nextId, owners := map[], 1, map[];
    }

    method Add(node: Node) returns (h: nat)
      requires Valid() && node.children == []
      modifies this`nodes, this`nextId
      ensures Valid() && h == old(nextId) && h !in old(nodes)
      ensures nodes == old(nodes)[h := node] && nextId == h + 1
    {
      h := nextId;
      nextId := nextId + 1;
      nodes := nodes[h := node];
      forall x | x in nodes
        ensures ChildrenOf(x, nodes[x].children, nextId, owners)
      {
        if x != h { ChildrenMonotone(x, nodes[x].children, h, owners, nextId, owners); }
      }
    }

    /** A finished element becomes the last child of the innermost open element, or the root. */
    static method Attach(stack: seq<Frame>, root: Root, h: nat) returns (stack': seq<Frame>, root': Root)
      ensures forall nodes, nextId :: Parser(nodes, nextId, stack', root') == XmlParse.Attach(Parser(nodes, nextId, stack, root), h)
    {
      if stack == [] {
        return stack, Root(h);
      }
      var f := stack[|stack| - 1];
      return stack[..|stack| - 1] + [Frame(f.handle, f.children + [h])], root;
    }

    /** One event: changes the registry, the open elements and the root. */
    method Take(event: Event, stack: seq<Frame>, root: Root) returns (stack': seq<Frame>, root': Root)
      requires Valid()
      modifies this`nodes, this`nextId
      ensures Parser(nodes, nextId, stack', root') == Step(Parser(old(nodes), old(nextId), stack, root), event)
    {
      stack', root' := stack, root;
      match event {
        case Start(tag, attributes) =>
          var h := Add(Node(tag, "", attributes, []));
          stack' := stack + [Frame(h, [])];
        case End =>
          if stack != [] {
            var f := stack[|stack| - 1];
            if f.handle in nodes {
              nodes := nodes[f.handle := nodes[f.handle].(children := f.children)];
            }
            stack', root' := Attach(stack[..|stack| - 1], root, f.handle);
          }
        case Empty(tag, attributes) =>
          var h := Add(Node(tag, "", attributes, []));
          stack', root' := Attach(stack, root, h);
        case Text(t) =>
          var trimmed := Trim(t);
          if trimmed != "" {
            nodes := WithText(nodes, stack, trimmed);
          }
        case CData(t) =>
          nodes := WithText(nodes, stack, t);
        case Other =>
      }
    }

    /**
     * Builds the nodes an event stream describes; `failed` says that the reader
     * reported an error after the last event.
     */
    method Parse(events: seq<Event>, failed: bool) returns (r: Parsed)
      requires Valid()
      modifies this
      ensures Valid()
      ensures nodes == Feed(Parser(old(nodes), old(nextId), [], NoRoot), events).nodes
      ensures nextId == Feed(Parser(old(nodes), old(nextId), [], NoRoot), events).nextId
      ensures r == Answer(Feed(Parser(old(nodes), old(nextId), [], NoRoot), events), failed)
      ensures Agree(old(nodes), nodes, 0, old(nextId))
    {
      ghost var start := Parser(nodes, nextId, [], NoRoot);
      var stack: seq<Frame> := [];
      var root := NoRoot;
      var i := 0;
      while i < |events|
        invariant i <= |events|
        invariant Building(Parser(nodes, nextId, stack, root), start.nextId, owners)
        invariant Feed(start, events) == Feed(Parser(nodes, nextId, stack, root), events[i..])
        invariant Agree(start.nodes, nodes, 0, start.nextId)
      {
        FeedNext(Parser(nodes, nextId, stack, root), events, i);
        ghost var owners' := StepKeeps(Parser(nodes, nextId, stack, root), start.nextId, owners, events[i]);
        stack, root := Take(events[i], stack, root);
        owners := owners';
        i := i + 1;
      }
      assert events[i..] == [];
      return if failed then Malformed else if root.NoRoot? then NoElement else Handle(root.handle);
    }

    /** Removes the node, then everything below it, child by child. */
    method Release(h: nat)
      requires Valid()
      modifies this
      ensures Valid() && nextId == old(nextId)
      ensures nodes == Released(old(nodes), h)
      decreases |nodes|
    {
      if h !in nodes {
        ReleaseDangling(nodes, h);
        return;
      }
      ReleaseUnfolds(nodes, nextId, owners, h);
      var children := nodes[h].children;
      nodes := nodes - {h};
      ghost var rest := nodes;
      var i := 0;
      assert children[..0] == [];
      assert AllReleased(rest, []) == rest;
      while i < |children|
        invariant i <= |children| && Valid() && nextId == old(nextId)
        invariant nodes == AllReleased(rest, children[..i])
        invariant |nodes| < old(|nodes|)
      {
        assert children[..i + 1] == children[..i] + [children[i]];
        ReleaseNext(rest, children[..i], children[i]);
        ghost var before := nodes;
        Release(children[i]);
        Fewer(before, nodes);
        i := i + 1;
      }
      assert children[..i] == children;
    }

    /** The opening tag up to but not including its end, built attribute by attribute. */
    static method Opening(tag: string, attributes: Attributes) returns (text: string)
      ensures text == OpeningTag(tag, attributes)
    {
      text := "<" + tag;
      var i := 0;
      while i < |attributes|
        invariant i <= |attributes|
        invariant text == "<" + tag + AttributesText(attributes[..i])
      {
        assert attributes[..i + 1][..i] == attributes[..i];
        text := text + AttributeText(attributes[i]);
        i := i + 1;
      }
      assert attributes[..i] == attributes;
    }

    /** Prints a node and what is below it; fails on the first handle that names no node. */
    method Stringify(h: nat) returns (r: Rendered)
      requires Valid()
      ensures Ascending(nodes, nextId) && r == Render(nodes, nextId, h)
      decreases nextId - h, 0
    {
      OwnedAscending(nodes, nextId, owners);
      if h !in nodes {
        return Invalid;
      }
      var node := nodes[h];
      var text := Opening(node.tag, node.attributes);
      if node.children == [] && node.text == "" {
        return Rendered(text + "/>");
      }
      var inner := StringifyAll(h + 1, node.children);
      if inner.Invalid? {
        return Invalid;
      }
      return Rendered(text + ">" + XmlEscape(node.text) + inner.text + ClosingTag(node.tag));
    }

    /** Prints the handles of a node's children, all of them from lo on, in order. */
    method StringifyAll(lo: nat, hs: seq<nat>) returns (r: Rendered)
      requires Valid() && lo <= nextId && Between(hs, lo, nextId)
      ensures Ascending(nodes, nextId) && r == RenderAll(nodes, nextId, lo, hs)
      decreases nextId - lo, 1
    {
      OwnedAscending(nodes, nextId, owners);
      var inner := "";
      var i := 0;
      while i < |hs|
        invariant i <= |hs| && Between(hs[..i], lo, nextId)
        invariant RenderAll(nodes, nextId, lo, hs[..i]) == Rendered(inner)
      {
        var child := Stringify(hs[i]);
        ghost var upTo := hs[..i + 1];
        assert upTo[..|upTo| - 1] == hs[..i] && upTo[|upTo| - 1] == hs[i];
        if child.Invalid? {
          InvalidPrefix(nodes, nextId, lo, hs, i + 1);
          return Invalid;
        }
        RenderMore(nodes, nextId, lo, upTo, inner, child.text);
        inner := inner + child.text;
        i := i + 1;
      }
      assert hs[..i] == hs;
      return Rendered(inner);
    }
  }

  function WithText(nodes: Nodes, stack: seq<Frame>, more: string): Nodes
  {
    if stack == [] || stack[|stack| - 1].handle !in nodes then nodes
    else
      var h := stack[|stack| - 1].handle;
      nodes[h := nodes[h].(text := Joined(nodes[h].text, more))]
  }

  lemma {:induction false} FeedNext(p: Parser, events: seq<Event>, i: nat)
    requires i < |events|
    ensures Feed(p, events[i..]) == Feed(Step(p, events[i]), events[i + 1..])
  {
    assert events[i..][1..] == events[i + 1..];
  }

  lemma {:induction false} Fewer(a: Nodes, b: Nodes)
    requires b.Keys <= a.Keys
    ensures |b| <= |a|
  {
    FewerKeys(a.Keys, b.Keys);
  }

  lemma {:induction false} FewerKeys(a: set<nat>, b: set<nat>)
    requires b <= a
    ensures |b| <= |a|
  {
    if b != {} {
      var x :| x in b;
      FewerKeys(a - {x}, b - {x});
    }
  }

  lemma {:induction false} InvalidPrefix(nodes: Nodes, nextId: nat, lo: nat, hs: seq<nat>, i: nat)
    requires Ascending(nodes, nextId) && lo <= nextId && Between(hs, lo, nextId) && i <= |hs|
    requires Between(hs[..i], lo, nextId) && RenderAll(nodes, nextId, lo, hs[..i]).Invalid?
    ensures RenderAll(nodes, nextId, lo, hs).Invalid?
    decreases |hs|
  {
    if i < |hs| {
      var front := hs[..|hs| - 1];
      assert front[..i] == hs[..i];
      InvalidPrefix(nodes, nextId, lo, front, i);
    } else {
      assert hs[..i] == hs;
    }
  }

  // What a document becomes.

  /** The nodes reached from a laid-out tree are exactly its own consecutive handles. */
  lemma {:induction false} LaidReach(nodes: Nodes, at: nat, t: Tree, k: nat)
    requires Laid(nodes, at, t)
    ensures Reaches(nodes, at, k) <==> at <= k < at + Size(t)
    decreases t
  {
    AllLaidReach(nodes, at + 1, t.children, k);
    if k == at {
      ReachesItself(nodes, at);
    } else if Reaches(nodes, at, k) {
      var i := ThroughChild(nodes, at, k);
      assert AnyReaches(nodes, Handles(at + 1, t.children), k);
    } else if AnyReaches(nodes, Handles(at + 1, t.children), k) {
      var hs := Handles(at + 1, t.children);
      var i :| 0 <= i < |hs| && Reaches(nodes, hs[i], k);
      ReachesLive(nodes, hs[i], k);
      ReachesChild(nodes, at, hs[i]);
      ReachesTransitive(nodes, at, hs[i], k);
    }
  }

  lemma {:induction false} AllLaidReach(nodes: Nodes, at: nat, ts: seq<Tree>, k: nat)
    requires AllLaid(nodes, at, ts)
    ensures AnyReaches(nodes, Handles(at, ts), k) <==> at <= k < at + Sizes(ts)
    decreases ts
  {
    if ts != [] {
      var next := at + Size(ts[0]);
      LaidReach(nodes, at, ts[0], k);
      AllLaidReach(nodes, next, ts[1..], k);
      AnyFirst(nodes, at, Handles(next, ts[1..]), k);
    }
  }

  lemma {:induction false} AnyFirst(nodes: Nodes, h: nat, hs: seq<nat>, k: nat)
    ensures AnyReaches(nodes, [h] + hs, k) <==> Reaches(nodes, h, k) || AnyReaches(nodes, hs, k)
  {
    var all := [h] + hs;
    if AnyReaches(nodes, hs, k) {
      var i :| 0 <= i < |hs| && Reaches(nodes, hs[i], k);
      assert Reaches(nodes, all[i + 1], k);
    }
    if Reaches(nodes, h, k) { assert Reaches(nodes, all[0], k); }
    if AnyReaches(nodes, all, k) && !Reaches(nodes, h, k) {
      var i :| 0 <= i < |all| && Reaches(nodes, all[i], k);
      assert Reaches(nodes, hs[i - 1], k);
    }
  }

  /** From the registry (nodes, nextId) a document with these top-level items ends at p. */
  predicate ParsesTo(nodes: Nodes, nextId: nat, items: seq<Item>, p: Parser)
  {
    p == Feed(Parser(nodes, nextId, [], NoRoot), AllEvents(items))
  }

  /** Earlier nodes are untouched, and there is an answer exactly when there is an element. */
  lemma {:induction false} DocumentParsed(nodes: Nodes, nextId: nat, items: seq<Item>, p: Parser)
    requires Below(nodes, nextId) && ParsesTo(nodes, nextId, items, p)
    ensures Agree(nodes, p.nodes, 0, nextId)
    ensures Answer(p, false).NoElement? <==> forall i :: 0 <= i < |items| ==> !IsElement(items[i])
  {
    ForestRuns(Parser(nodes, nextId, [], NoRoot), items);
    NoTrees(items);
  }

  lemma {:induction false} NoTrees(items: seq<Item>)
    ensures Trees(items) == [] <==> forall i :: 0 <= i < |items| ==> !IsElement(items[i])
  {
    if items != [] {
      NoTrees(items[1..]);
      assert Trees(items) == [] ==> !IsElement(items[0]) && Trees(items[1..]) == [];
      if Trees(items) == [] {
        forall i | 0 <= i < |items| ensures !IsElement(items[i]) {
          if i > 0 { assert items[i] == items[1..][i - 1]; }
        }
      }
    }
  }

  /** A document with one element answers the next handle; below it lies exactly its tree. */
  lemma {:induction false} SingleRootParsed(nodes: Nodes, nextId: nat, owners: Owners, items: seq<Item>, root: Item, p: Parser)
    requires Owned(nodes, nextId, owners) && ParsesTo(nodes, nextId, items, p)
    requires IsElement(root) && Trees(items) == [TreeOf(root)]
    ensures Answer(p, false) == Handle(nextId)
    ensures Laid(p.nodes, nextId, TreeOf(root)) && p.nextId == nextId + Size(TreeOf(root))
    ensures forall k: nat :: Reaches(p.nodes, nextId, k) <==> nextId <= k < p.nextId
    ensures Ascending(p.nodes, p.nextId) && Render(p.nodes, p.nextId, nextId) == Rendered(Print(TreeOf(root)))
  {
    var t := TreeOf(root);
    var start := Parser(nodes, nextId, [], NoRoot);
    ForestRuns(start, items);
    var owners' := FeedKeeps(start, nextId, owners, AllEvents(items));
    OwnedAscending(p.nodes, p.nextId, owners');
    assert [t] + [] == [t] && Sizes([]) == 0;
    FrontTree(p.nodes, nextId, t, []);
    forall k: nat ensures Reaches(p.nodes, nextId, k) <==> nextId <= k < p.nextId {
      LaidReach(p.nodes, nextId, t, k);
    }
    LaidPrints(p.nodes, p.nextId, nextId, t);
  }

  /** One element among text, comments and the like. */
  lemma {:induction false} OneElement(before: seq<Item>, root: Item, after: seq<Item>)
    requires IsElement(root)
    requires forall i :: 0 <= i < |before| ==> !IsElement(before[i])
    requires forall i :: 0 <= i < |after| ==> !IsElement(after[i])
    ensures Trees(before + [root] + after) == [TreeOf(root)]
    decreases before
  {
    var items := before + [root] + after;
    if before == [] {
      assert items[0] == root && items[1..] == after;
      NoTrees(after);
    } else {
      assert items[0] == before[0] && items[1..] == before[1..] + [root] + after;
      OneElement(before[1..], root, after);
    }
  }
}
