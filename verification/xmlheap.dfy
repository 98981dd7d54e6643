/** What every history of parses and releases keeps true of the shared node registry. */
module XmlHeap {

  import opened Text
  import opened XmlParse

  // Each handle is the child of at most one node, whose handle is smaller.

  /** For every handle that became a child, the handle of its parent. */
  type Owners = map<nat, nat>

  predicate ChildrenOf(h: nat, children: seq<nat>, nextId: nat, owners: Owners)
  {
    && (forall i :: 0 <= i < |children| ==>
          h < children[i] < nextId && children[i] in owners && owners[children[i]] == h)
    && (forall i, j :: 0 <= i < j < |children| ==> children[i] < children[j])
  }

  predicate Owned(nodes: Nodes, nextId: nat, owners: Owners)
  {
    && (forall h :: h in nodes ==> h < nextId && ChildrenOf(h, nodes[h].children, nextId, owners))
    && (forall c :: c in owners ==> c < nextId)
  }

  /** The open elements: started at or after `base`, not yet children, innermost last. */
  predicate OpenElements(stack: seq<Frame>, base: nat, nextId: nat, owners: Owners)
  {
    && (forall k :: 0 <= k < |stack| ==>
          && base <= stack[k].handle < nextId && stack[k].handle !in owners
          && ChildrenOf(stack[k].handle, stack[k].children, nextId, owners))
    && (forall k, l :: 0 <= k < l < |stack| ==> stack[k].handle < stack[l].handle)
    && (forall k, l, c :: 0 <= k < l < |stack| && c in stack[k].children ==> c < stack[l].handle)
  }

  predicate Building(p: Parser, base: nat, owners: Owners)
  {
    && base <= p.nextId && Owned(p.nodes, p.nextId, owners)
    && OpenElements(p.stack, base, p.nextId, owners)
  }

  lemma {:induction false} ChildrenMonotone(h: nat, children: seq<nat>, nextId: nat, owners: Owners, nextId': nat, owners': Owners)
    requires ChildrenOf(h, children, nextId, owners) && nextId <= nextId'
    requires forall c :: c in owners ==> c in owners' && owners'[c] == owners[c]
    ensures ChildrenOf(h, children, nextId', owners')
  {
  }

  /** Inserting a node without children under a new handle. */
  lemma {:induction false} InsertKeeps(p: Parser, base: nat, owners: Owners, tag: string, attributes: Attributes)
    requires Building(p, base, owners)
    ensures Building(Insert(p, tag, attributes), base, owners)
  {
    var q := Insert(p, tag, attributes);
    forall h | h in q.nodes
      ensures h < q.nextId && ChildrenOf(h, q.nodes[h].children, q.nextId, owners)
    {
      if h != p.nextId { ChildrenMonotone(h, p.nodes[h].children, p.nextId, owners, q.nextId, owners); }
    }
    forall k | 0 <= k < |q.stack|
      ensures ChildrenOf(q.stack[k].handle, q.stack[k].children, q.nextId, owners)
    {
      ChildrenMonotone(p.stack[k].handle, p.stack[k].children, p.nextId, owners, q.nextId, owners);
    }
  }

  /** A handle that can still be attached: newer than all open elements and their children. */
  predicate Attachable(p: Parser, h: nat, owners: Owners)
  {
    && h < p.nextId && h !in owners
    && (forall k :: 0 <= k < |p.stack| ==> p.stack[k].handle < h)
    && (forall k, c :: 0 <= k < |p.stack| && c in p.stack[k].children ==> c < h)
  }

  lemma {:induction false} AttachKeeps(p: Parser, base: nat, owners: Owners, h: nat) returns (owners': Owners)
    requires Building(p, base, owners) && Attachable(p, h, owners)
    ensures Building(Attach(p, h), base, owners')
  {
    hide ChildrenOf;
    if p.stack == [] {
      owners' := owners;
    } else {
      var n := |p.stack| - 1;
      var f := p.stack[n];
      var g := Frame(f.handle, f.children + [h]);
      owners' := owners[h := f.handle];
      var q := Attach(p, h);
      assert q.stack == p.stack[..n] + [g];
      forall x | x in q.nodes
        ensures ChildrenOf(x, q.nodes[x].children, q.nextId, owners')
      {
        ChildrenMonotone(x, p.nodes[x].children, p.nextId, owners, q.nextId, owners');
      }
      forall k | 0 <= k < |q.stack|
        ensures ChildrenOf(q.stack[k].handle, q.stack[k].children, q.nextId, owners')
      {
        ChildrenMonotone(p.stack[k].handle, p.stack[k].children, p.nextId, owners, q.nextId, owners');
        if k == n { ChildAdded(f, h, q.nextId, owners'); }
      }
    }
  }

  lemma {:induction false} ChildAdded(f: Frame, h: nat, nextId: nat, owners: Owners)
    requires ChildrenOf(f.handle, f.children, nextId, owners)
    requires f.handle < h < nextId && h in owners && owners[h] == f.handle
    requires forall c :: c in f.children ==> c < h
    ensures ChildrenOf(f.handle, f.children + [h], nextId, owners)
  {
    var cs := f.children + [h];
    forall i, j | 0 <= i < j < |cs|
      ensures cs[i] < cs[j]
    {
      if j == |f.children| { assert f.children[i] in f.children; }
    }
  }

  /** The innermost open element without its frame, with the given nodes. */
  lemma {:induction false} PopKeeps(p: Parser, base: nat, owners: Owners, q: Parser)
    requires Building(p, base, owners) && p.stack != [] && Owned(q.nodes, p.nextId, owners)
    requires q == Pop(p).(nodes := q.nodes)
    ensures Building(q, base, owners) && Attachable(q, Top(p).handle, owners)
  {
    hide ChildrenOf, Owned;
    var n := |p.stack| - 1;
    assert p.stack[n] == Top(p);
    assert forall k :: 0 <= k < n ==> q.stack[k] == p.stack[k];
  }

  lemma {:induction false} FinishedOwned(p: Parser, base: nat, owners: Owners, f: Frame, nodes: Nodes)
    requires Building(p, base, owners) && p.stack != [] && f == Top(p)
    requires nodes == if f.handle in p.nodes then p.nodes[f.handle := p.nodes[f.handle].(children := f.children)] else p.nodes
    ensures Owned(nodes, p.nextId, owners) && Agree(p.nodes, nodes, 0, base)
  {
    hide ChildrenOf;
    assert p.stack[|p.stack| - 1] == f;
  }

  lemma {:induction false} CloseKeeps(p: Parser, base: nat, owners: Owners) returns (owners': Owners)
    requires Building(p, base, owners)
    ensures Building(Close(p), base, owners')
    ensures Agree(p.nodes, Close(p).nodes, 0, base)
  {
    hide Building, Owned, Attachable;
    if p.stack == [] {
      owners' := owners;
    } else {
      var f := Top(p);
      var nodes := if f.handle in p.nodes then p.nodes[f.handle := p.nodes[f.handle].(children := f.children)] else p.nodes;
      var q := Pop(p).(nodes := nodes);
      FinishedOwned(p, base, owners, f, nodes);
      PopKeeps(p, base, owners, q);
      owners' := AttachKeeps(q, base, owners, f.handle);
      assert Close(p) == Attach(q, f.handle);
    }
  }

  lemma {:induction false} TextKeeps(p: Parser, base: nat, owners: Owners, more: string)
    requires Building(p, base, owners)
    ensures Building(AddText(p, more), base, owners)
    ensures Agree(p.nodes, AddText(p, more).nodes, 0, base)
  {
    var q := AddText(p, more);
    forall h | h in q.nodes
      ensures h in p.nodes && q.nodes[h].children == p.nodes[h].children
    {
    }
  }

  lemma {:induction false} ChildIsOld(h: nat, children: seq<nat>, nextId: nat, owners: Owners, c: nat)
    requires ChildrenOf(h, children, nextId, owners) && c in children
    ensures c < nextId
  {
    var i :| 0 <= i < |children| && children[i] == c;
  }

  lemma {:induction false} PushKeeps(stack: seq<Frame>, base: nat, h: nat, owners: Owners)
    requires OpenElements(stack, base, h + 1, owners) && base <= h && h !in owners
    requires forall k :: 0 <= k < |stack| ==> stack[k].handle < h
    requires forall k, c :: 0 <= k < |stack| && c in stack[k].children ==> c < h
    ensures OpenElements(stack + [Frame(h, [])], base, h + 1, owners)
  {
    assert ChildrenOf(h, [], h + 1, owners);
    hide ChildrenOf;
  }

  lemma {:induction false} StartKeeps(p: Parser, base: nat, owners: Owners, e: Event)
    requires Building(p, base, owners) && e.Start?
    ensures Building(Step(p, e), base, owners)
    ensures Agree(p.nodes, Step(p, e).nodes, 0, base)
  {
    var q := Insert(p, e.tag, e.attributes);
    InsertKeeps(p, base, owners, e.tag, e.attributes);
    assert p.nextId !in owners;
    assert Agree(p.nodes, q.nodes, 0, base);
    hide Owned, ChildrenOf, Insert, Agree;
    forall k, c | 0 <= k < |p.stack| && c in p.stack[k].children ensures c < p.nextId {
      ChildIsOld(p.stack[k].handle, p.stack[k].children, p.nextId, owners, c);
    }
    PushKeeps(p.stack, base, p.nextId, owners);
  }

  lemma {:induction false} EmptyKeeps(p: Parser, base: nat, owners: Owners, e: Event) returns (owners': Owners)
    requires Building(p, base, owners) && e.Empty?
    ensures Building(Step(p, e), base, owners')
    ensures Agree(p.nodes, Step(p, e).nodes, 0, base)
  {
    InsertKeeps(p, base, owners, e.tag, e.attributes);
    var q := Insert(p, e.tag, e.attributes);
    forall k, c | 0 <= k < |q.stack| && c in q.stack[k].children
      ensures c < p.nextId
    {
      var i :| 0 <= i < |p.stack[k].children| && p.stack[k].children[i] == c;
    }
    owners' := AttachKeeps(q, base, owners, p.nextId);
  }

  /** Any event at all keeps the ownership, and no node from before the parse is touched. */
  lemma {:induction false} StepKeeps(p: Parser, base: nat, owners: Owners, e: Event) returns (owners': Owners)
    requires Building(p, base, owners)
    ensures Building(Step(p, e), base, owners')
    ensures Agree(p.nodes, Step(p, e).nodes, 0, base)
  {
    owners' := owners;
    match e {
      case Start(_, _) => StartKeeps(p, base, owners, e);
      case End => owners' := CloseKeeps(p, base, owners);
      case Empty(_, _) => owners' := EmptyKeeps(p, base, owners, e);
      case Text(t) => TextKeeps(p, base, owners, Trim(t));
      case CData(t) => TextKeeps(p, base, owners, t);
      case Other =>
    }
  }

  lemma {:induction false} StepGrows(p: Parser, e: Event)
    ensures p.nextId <= Step(p, e).nextId
  {
  }

  lemma {:induction false} FeedKeeps(p: Parser, base: nat, owners: Owners, events: seq<Event>) returns (owners': Owners)
    requires Building(p, base, owners)
    ensures Building(Feed(p, events), base, owners')
    ensures Agree(p.nodes, Feed(p, events).nodes, 0, base)
    ensures p.nextId <= Feed(p, events).nextId
    decreases events
  {
    owners' := owners;
    if events != [] {
      owners' := StepKeeps(p, base, owners, events[0]);
      owners' := FeedKeeps(Step(p, events[0]), base, owners', events[1..]);
      StepGrows(p, events[0]);
    }
  }

  // Live reachability.

  predicate LivePath(nodes: Nodes, p: seq<nat>)
  {
    && |p| >= 1 && (forall i :: 0 <= i < |p| ==> p[i] in nodes)
    && (forall i :: 0 <= i < |p| - 1 ==> p[i + 1] in nodes[p[i]].children)
  }

  /** k is h, or is below h with every node on the way still registered. */
  ghost predicate Reaches(nodes: Nodes, h: nat, k: nat)
  {
    exists p :: LivePath(nodes, p) && p[0] == h && p[|p| - 1] == k
  }

  ghost predicate AnyReaches(nodes: Nodes, hs: seq<nat>, k: nat)
  {
    exists i :: 0 <= i < |hs| && Reaches(nodes, hs[i], k)
  }

  lemma {:induction false} ReachesLive(nodes: Nodes, h: nat, k: nat)
    requires Reaches(nodes, h, k)
    ensures h in nodes && k in nodes
  {
    var p :| LivePath(nodes, p) && p[0] == h && p[|p| - 1] == k;
  }

  lemma {:induction false} ReachesItself(nodes: Nodes, h: nat)
    requires h in nodes
    ensures Reaches(nodes, h, h)
  {
    assert LivePath(nodes, [h]);
  }

  lemma {:induction false} PathsJoin(nodes: Nodes, p: seq<nat>, q: seq<nat>)
    requires LivePath(nodes, p) && LivePath(nodes, q) && p[|p| - 1] == q[0]
    ensures LivePath(nodes, p + q[1..])
    ensures (p + q[1..])[0] == p[0] && (p + q[1..])[|p + q[1..]| - 1] == q[|q| - 1]
  {
    var r := p + q[1..];
    forall i | 0 <= i < |r| - 1
      ensures r[i + 1] in nodes[r[i]].children
    {
      if i >= |p| - 1 {
        assert r[i] == q[i - |p| + 1] && r[i + 1] == q[i - |p| + 2];
      } else {
        assert r[i] == p[i] && r[i + 1] == p[i + 1];
      }
    }
  }

  lemma {:induction false} ReachesTransitive(nodes: Nodes, a: nat, b: nat, c: nat)
    requires Reaches(nodes, a, b) && Reaches(nodes, b, c)
    ensures Reaches(nodes, a, c)
  {
    var p :| LivePath(nodes, p) && p[0] == a && p[|p| - 1] == b;
    var q :| LivePath(nodes, q) && q[0] == b && q[|q| - 1] == c;
    PathsJoin(nodes, p, q);
  }

  lemma {:induction false} PathPart(nodes: Nodes, p: seq<nat>, i: nat, j: nat)
    requires LivePath(nodes, p) && i <= j < |p|
    ensures LivePath(nodes, p[i..j + 1])
  {
    var q := p[i..j + 1];
    forall x | 0 <= x < |q| - 1
      ensures q[x + 1] in nodes[q[x]].children
    {
      assert p[i + x + 1] in nodes[p[i + x]].children;
    }
  }

  /** Every node on a path is reached from its start and reaches its end. */
  lemma {:induction false} OnTheWay(nodes: Nodes, p: seq<nat>, i: nat)
    requires LivePath(nodes, p) && i < |p|
    ensures Reaches(nodes, p[0], p[i]) && Reaches(nodes, p[i], p[|p| - 1])
  {
    PathPart(nodes, p, 0, i);
    PathPart(nodes, p, i, |p| - 1);
    assert p[0..i + 1][0] == p[0] && p[0..i + 1][i] == p[i];
    assert p[i..|p| - 1 + 1][0] == p[i] && p[i..|p| - 1 + 1][|p| - 1 - i] == p[|p| - 1];
  }

  lemma {:induction false} ReachesChild(nodes: Nodes, h: nat, c: nat)
    requires h in nodes && c in nodes[h].children && c in nodes
    ensures Reaches(nodes, h, c)
  {
    assert LivePath(nodes, [h, c]);
  }

  /** Handles grow along a path. */
  lemma {:induction false} PathAscends(nodes: Nodes, nextId: nat, owners: Owners, p: seq<nat>, i: nat)
    requires Owned(nodes, nextId, owners) && LivePath(nodes, p) && i < |p|
    ensures p[0] <= p[i]
  {
    if i > 0 {
      PathAscends(nodes, nextId, owners, p, i - 1);
      assert p[i - 1 + 1] in nodes[p[i - 1]].children;
    }
  }

  /** A node other than h is reached from h through one of its children. */
  lemma {:induction false} ThroughChild(nodes: Nodes, h: nat, k: nat) returns (i: nat)
    requires Reaches(nodes, h, k) && h != k
    ensures h in nodes && i < |nodes[h].children| && Reaches(nodes, nodes[h].children[i], k)
  {
    var p :| LivePath(nodes, p) && p[0] == h && p[|p| - 1] == k;
    OnTheWay(nodes, p, 1);
    assert p[0 + 1] in nodes[p[0]].children;
    i :| 0 <= i < |nodes[h].children| && nodes[h].children[i] == p[1];
  }

  // Releasing.

  ghost function Released(nodes: Nodes, h: nat): Nodes
  {
    map k | k in nodes && !Reaches(nodes, h, k) :: nodes[k]
  }

  ghost function AllReleased(nodes: Nodes, hs: seq<nat>): Nodes
  {
    map k | k in nodes && !AnyReaches(nodes, hs, k) :: nodes[k]
  }

  lemma {:induction false} FewerPaths(a: Nodes, b: Nodes, p: seq<nat>)
    requires LivePath(b, p) && (forall k :: k in b ==> k in a && a[k] == b[k])
    ensures LivePath(a, p)
  {
  }

  /** With h's nodes gone, d reaches what it reached before except what h reached. */
  lemma {:induction false} ReachesAfter(nodes: Nodes, h: nat, d: nat, k: nat)
    ensures Reaches(Released(nodes, h), d, k) <==> Reaches(nodes, d, k) && !Reaches(nodes, h, k)
  {
    var rest := Released(nodes, h);
    if Reaches(rest, d, k) {
      var p :| LivePath(rest, p) && p[0] == d && p[|p| - 1] == k;
      FewerPaths(nodes, rest, p);
    }
    if Reaches(nodes, d, k) && !Reaches(nodes, h, k) {
      var p :| LivePath(nodes, p) && p[0] == d && p[|p| - 1] == k;
      forall i | 0 <= i < |p|
        ensures p[i] in rest
      {
        OnTheWay(nodes, p, i);
        if Reaches(nodes, h, p[i]) { ReachesTransitive(nodes, h, p[i], k); }
      }
      assert LivePath(rest, p);
    }
  }

  /** Releasing handles one after the other. */
  lemma {:induction false} ReleaseNext(nodes: Nodes, hs: seq<nat>, h: nat)
    ensures AllReleased(nodes, hs + [h]) == Released(AllReleased(nodes, hs), h)
  {
    forall k | k in nodes
      ensures AnyReaches(nodes, hs + [h], k) <==> AnyReaches(nodes, hs, k) || Reaches(AllReleased(nodes, hs), h, k)
    {
      AnyMore(nodes, hs, h, k);
      AllReachesAfter(nodes, hs, h, k);
    }
  }

  lemma {:induction false} AnyMore(nodes: Nodes, hs: seq<nat>, h: nat, k: nat)
    ensures AnyReaches(nodes, hs + [h], k) <==> AnyReaches(nodes, hs, k) || Reaches(nodes, h, k)
  {
    var all := hs + [h];
    if AnyReaches(nodes, hs, k) {
      var i :| 0 <= i < |hs| && Reaches(nodes, hs[i], k);
      assert Reaches(nodes, all[i], k);
    }
    if Reaches(nodes, h, k) { assert Reaches(nodes, all[|hs|], k); }
  }

  lemma {:induction false} AllReachesAfter(nodes: Nodes, hs: seq<nat>, d: nat, k: nat)
    ensures Reaches(AllReleased(nodes, hs), d, k) <==> Reaches(nodes, d, k) && !AnyReaches(nodes, hs, k)
  {
    var rest := AllReleased(nodes, hs);
    if Reaches(rest, d, k) {
      var p :| LivePath(rest, p) && p[0] == d && p[|p| - 1] == k;
      FewerPaths(nodes, rest, p);
    }
    if Reaches(nodes, d, k) && !AnyReaches(nodes, hs, k) {
      var p :| LivePath(nodes, p) && p[0] == d && p[|p| - 1] == k;
      forall i | 0 <= i < |p|
        ensures p[i] in rest
      {
        OnTheWay(nodes, p, i);
        if AnyReaches(nodes, hs, p[i]) {
          var j :| 0 <= j < |hs| && Reaches(nodes, hs[j], p[i]);
          ReachesTransitive(nodes, hs[j], p[i], k);
        }
      }
      assert LivePath(rest, p);
    }
  }

  /** Releasing a node is removing it and then releasing its children. */
  lemma {:induction false} ReleaseUnfolds(nodes: Nodes, nextId: nat, owners: Owners, h: nat)
    requires Owned(nodes, nextId, owners) && h in nodes
    ensures Released(nodes, h) == AllReleased(nodes - {h}, nodes[h].children)
  {
    var rest, cs := nodes - {h}, nodes[h].children;
    forall k | k in nodes
      ensures Reaches(nodes, h, k) <==> k == h || AnyReaches(rest, cs, k)
    {
      if k == h { ReachesItself(nodes, h); }
      if k != h && Reaches(nodes, h, k) {
        var i := ThroughChild(nodes, h, k);
        AvoidsParent(nodes, nextId, owners, h, cs[i], k);
      }
      if AnyReaches(rest, cs, k) {
        var i :| 0 <= i < |cs| && Reaches(rest, cs[i], k);
        var p :| LivePath(rest, p) && p[0] == cs[i] && p[|p| - 1] == k;
        FewerPaths(nodes, rest, p);
        ReachesChild(nodes, h, cs[i]);
        ReachesTransitive(nodes, h, cs[i], k);
      }
    }
  }

  lemma {:induction false} AvoidsParent(nodes: Nodes, nextId: nat, owners: Owners, h: nat, c: nat, k: nat)
    requires Owned(nodes, nextId, owners) && Reaches(nodes, c, k) && h < c
    ensures Reaches(nodes - {h}, c, k)
  {
    var p :| LivePath(nodes, p) && p[0] == c && p[|p| - 1] == k;
    forall i | 0 <= i < |p|
      ensures p[i] in nodes - {h}
    {
      PathAscends(nodes, nextId, owners, p, i);
    }
    assert LivePath(nodes - {h}, p);
  }

  lemma {:induction false} ReleaseDangling(nodes: Nodes, h: nat)
    requires h !in nodes
    ensures Released(nodes, h) == nodes
  {
    forall k | k in nodes ensures !Reaches(nodes, h, k) {
      if Reaches(nodes, h, k) { ReachesLive(nodes, h, k); assert false; }
    }
  }

  // Trees do not overlap.

  lemma {:induction false} SameParent(nodes: Nodes, nextId: nat, owners: Owners, a: nat, b: nat, c: nat)
    requires Owned(nodes, nextId, owners) && a in nodes && b in nodes
    requires c in nodes[a].children && c in nodes[b].children
    ensures a == b
  {
    var i :| 0 <= i < |nodes[a].children| && nodes[a].children[i] == c;
    var j :| 0 <= j < |nodes[b].children| && nodes[b].children[j] == c;
  }

  /** Two nodes with a common descendant are above one another. */
  lemma {:induction false} CommonDescendant(nodes: Nodes, nextId: nat, owners: Owners, p: seq<nat>, q: seq<nat>)
    requires Owned(nodes, nextId, owners) && LivePath(nodes, p) && LivePath(nodes, q)
    requires p[|p| - 1] == q[|q| - 1]
    ensures Reaches(nodes, p[0], q[0]) || Reaches(nodes, q[0], p[0])
    decreases |p|
  {
    if |p| == 1 {
      OnTheWay(nodes, q, 0);
    } else if |q| == 1 {
      OnTheWay(nodes, p, 0);
    } else {
      var m, n := |p| - 2, |q| - 2;
      assert p[m + 1] in nodes[p[m]].children && q[n + 1] in nodes[q[n]].children;
      SameParent(nodes, nextId, owners, p[m], q[n], p[m + 1]);
      PathPart(nodes, p, 0, m);
      PathPart(nodes, q, 0, n);
      CommonDescendant(nodes, nextId, owners, p[0..m + 1], q[0..n + 1]);
    }
  }

  /** Releasing h leaves every node of a tree that does not overlap h's in place. */
  lemma {:induction false} ReleaseElsewhere(nodes: Nodes, nextId: nat, owners: Owners, h: nat, g: nat, k: nat)
    requires Owned(nodes, nextId, owners) && Reaches(nodes, g, k)
    requires !Reaches(nodes, h, g) && !Reaches(nodes, g, h)
    ensures k in Released(nodes, h) && Reaches(Released(nodes, h), g, k)
  {
    ReachesLive(nodes, g, k);
    if Reaches(nodes, h, k) {
      var p :| LivePath(nodes, p) && p[0] == h && p[|p| - 1] == k;
      var q :| LivePath(nodes, q) && q[0] == g && q[|q| - 1] == k;
      CommonDescendant(nodes, nextId, owners, p, q);
      assert false;
    }
    ReachesAfter(nodes, h, g, k);
  }

  // Histories.

  datatype Operation = Parse(events: seq<Event>) | Release(handle: nat)

  datatype Registered = Registered(nodes: Nodes, nextId: nat)

  ghost function Perform(r: Registered, op: Operation): Registered
  {
    match op
    case Parse(events) =>
      var p := Feed(Parser(r.nodes, r.nextId, [], NoRoot), events);
      Registered(p.nodes, p.nextId)
    case Release(h) => Registered(Released(r.nodes, h), r.nextId)
  }

  ghost function PerformAll(r: Registered, ops: seq<Operation>): Registered
    decreases ops
  {
    if ops == [] then r else PerformAll(Perform(r, ops[0]), ops[1..])
  }

  lemma {:induction false} OperationKeeps(r: Registered, op: Operation, owners: Owners) returns (owners': Owners)
    requires Owned(r.nodes, r.nextId, owners)
    ensures Owned(Perform(r, op).nodes, Perform(r, op).nextId, owners')
    ensures r.nextId <= Perform(r, op).nextId
    ensures forall h :: h < r.nextId && h in Perform(r, op).nodes ==> h in r.nodes && Perform(r, op).nodes[h] == r.nodes[h]
  {
    owners' := owners;
    match op {
      case Parse(events) =>
        owners' := FeedKeeps(Parser(r.nodes, r.nextId, [], NoRoot), r.nextId, owners, events);
      case Release(h) =>
    }
  }

  /**
   * After any parses, complete or not, and releases: every child has one parent, with a
   * smaller handle, and a handle given out before is either untouched or gone for good.
   */
  lemma {:induction false} HistoryKeeps(r: Registered, ops: seq<Operation>, owners: Owners) returns (owners': Owners)
    requires Owned(r.nodes, r.nextId, owners)
    ensures Owned(PerformAll(r, ops).nodes, PerformAll(r, ops).nextId, owners')
    ensures r.nextId <= PerformAll(r, ops).nextId
    ensures forall h :: h < r.nextId && h in PerformAll(r, ops).nodes ==>
              h in r.nodes && PerformAll(r, ops).nodes[h] == r.nodes[h]
    decreases ops
  {
    owners' := owners;
    if ops != [] {
      owners' := OperationKeeps(r, ops[0], owners);
      owners' := HistoryKeeps(Perform(r, ops[0]), ops[1..], owners');
    }
  }

  /** A child handle left dangling by a release never names a node again. */
  lemma {:induction false} DanglingForever(r: Registered, ops: seq<Operation>, owners: Owners, h: nat, c: nat)
    requires Owned(r.nodes, r.nextId, owners)
    requires h in r.nodes && c in r.nodes[h].children && c !in r.nodes
    ensures c !in PerformAll(r, ops).nodes
  {
    var owners' := HistoryKeeps(r, ops, owners);
    var i :| 0 <= i < |r.nodes[h].children| && r.nodes[h].children[i] == c;
  }
}
