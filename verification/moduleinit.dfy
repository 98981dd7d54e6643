/** The depth-first search that puts a program's modules in initialisation order. */
module ModuleInit {

  import opened ModuleGraph

  datatype Mark = Visiting | Done

  datatype Fault =
    | Circular(name: string)
    | MissingId(name: string)
    | Unresolved(name: string, id: nat)

  datatype Outcome = Ordered | Failed(fault: Fault)

  // What a fault proves about the graph reached from `root`.

  ghost predicate ShowsCycle(linker: Linker, root: Module, name: string, x: Module)
  {
    x.name == name && Reaches(linker, root, x) && OnCycle(linker, x)
  }

  ghost predicate ShowsMissing(linker: Linker, root: Module, name: string, x: Module)
  {
    x.name == name && Reaches(linker, root, x) && 0 in x.imports
  }

  ghost predicate ShowsUnresolved(linker: Linker, root: Module, name: string, id: nat, x: Module)
  {
    x.name == name && Reaches(linker, root, x) && id in x.imports && id != 0 && id !in linker
  }

  ghost predicate Justified(linker: Linker, root: Module, fault: Fault)
  {
    match fault
    case Circular(name) => exists x :: ShowsCycle(linker, root, name, x)
    case MissingId(name) => exists x :: ShowsMissing(linker, root, name, x)
    case Unresolved(name, id) => exists x :: ShowsUnresolved(linker, root, name, id, x)
  }

  /** A justified fault means that no initialisation order exists. */
  lemma {:induction false} JustifiedRefutes(linker: Linker, root: Module, fault: Fault)
    requires Justified(linker, root, fault)
    ensures !Initialisable(linker, root)
  {
    match fault
    case Circular(name) =>
      var x :| ShowsCycle(linker, root, name, x);
    case MissingId(name) =>
      var x :| ShowsMissing(linker, root, name, x);
      var k :| 0 <= k < |x.imports| && x.imports[k] == 0;
      assert !Resolvable(linker, x.imports[k]);
    case Unresolved(name, id) =>
      var x :| ShowsUnresolved(linker, root, name, id, x);
      var k :| 0 <= k < |x.imports| && x.imports[k] == id;
      assert !Resolvable(linker, x.imports[k]);
  }

  /** The modules finished so far: done in `marks` exactly when listed, imports first. */
  ghost predicate Finished(linker: Linker, marks: map<string, Mark>, ordered: seq<Module>)
  {
    && Topological(linker, ordered)
    && (forall m :: m in ordered ==> Loaded(linker, m))
    && (forall m :: Loaded(linker, m) ==> (Marked(marks, m, Done) <==> m in ordered))
  }

  /** The modules being visited are those on the path of imports from the entry. */
  ghost predicate OnPath(linker: Linker, marks: map<string, Mark>, path: seq<Module>)
  {
    && (forall m :: m in path ==> Loaded(linker, m))
    && (forall m :: Loaded(linker, m) ==> (Marked(marks, m, Visiting) <==> m in path))
  }

  predicate Marked(marks: map<string, Mark>, m: Module, mark: Mark)
  {
    m.name in marks && marks[m.name] == mark
  }

  ghost function Unmarked(linker: Linker, marks: map<string, Mark>): set<string>
  {
    (set i | i in linker :: linker[i].name) - marks.Keys
  }

  /** Everything listed beyond `start` is reached from m. */
  ghost predicate Gathered(linker: Linker, m: Module, start: seq<Module>, ordered: seq<Module>)
  {
    forall x :: x in ordered ==> x in start || Reaches(linker, m, x)
  }

  /** The first k imports of m resolve to listed modules. */
  predicate ImportsListed(linker: Linker, m: Module, k: nat, ordered: seq<Module>)
    requires k <= |m.imports|
  {
    forall j :: 0 <= j < k ==> Resolvable(linker, m.imports[j]) && linker[m.imports[j]] in ordered
  }

  lemma {:induction false} MoreListed(linker: Linker, m: Module, k: nat, before: seq<Module>, after: seq<Module>)
    requires k < |m.imports| && ImportsListed(linker, m, k, before) && before <= after
    requires Resolvable(linker, m.imports[k]) && linker[m.imports[k]] in after
    ensures ImportsListed(linker, m, k + 1, after)
  {
    forall x | x in before ensures x in after {
      var i :| 0 <= i < |before| && before[i] == x;
      assert after[i] == x;
    }
  }

  /** Marking an unmarked module as being visited puts it at the end of the path. */
  lemma {:induction false} Entering(linker: Linker, marks: map<string, Mark>, ordered: seq<Module>, path: seq<Module>, m: Module)
    requires DistinctNames(linker) && Loaded(linker, m) && m.name !in marks
    requires Finished(linker, marks, ordered) && OnPath(linker, marks, path)
    ensures Finished(linker, marks[m.name := Visiting], ordered)
    ensures OnPath(linker, marks[m.name := Visiting], path + [m])
    ensures Unmarked(linker, marks[m.name := Visiting]) < Unmarked(linker, marks)
  {
    var marks' := marks[m.name := Visiting];
    forall x | Loaded(linker, x)
      ensures Marked(marks', x, Done) <==> x in ordered
      ensures Marked(marks', x, Visiting) <==> x in path + [m]
    {
      if x.name == m.name { NameIdentifies(linker, x, m); }
    }
    var i :| i in linker && linker[i] == m;
    assert m.name in Unmarked(linker, marks);
  }

  /** Finishing a module whose imports are all listed takes it off the path and lists it last. */
  lemma {:induction false} Leaving(linker: Linker, marks: map<string, Mark>, ordered: seq<Module>, path: seq<Module>, m: Module)
    requires DistinctNames(linker) && Loaded(linker, m) && m !in path
    requires Finished(linker, marks, ordered) && OnPath(linker, marks, path + [m])
    requires ImportsListed(linker, m, |m.imports|, ordered)
    ensures Finished(linker, marks[m.name := Done], ordered + [m])
    ensures OnPath(linker, marks[m.name := Done], path)
  {
    var marks' := marks[m.name := Done];
    assert m in path + [m] && Marked(marks, m, Visiting);
    forall x | Loaded(linker, x)
      ensures Marked(marks', x, Done) <==> x in ordered + [m]
      ensures Marked(marks', x, Visiting) <==> x in path
    {
      if x.name == m.name { NameIdentifies(linker, x, m); }
      assert x in path + [m] <==> x in path || x == m;
    }
    ListedLast(linker, ordered, m);
    forall x | x in path
      ensures Loaded(linker, x)
    {
      assert x in path + [m];
    }
  }

  lemma {:induction false} ListedLast(linker: Linker, ordered: seq<Module>, m: Module)
    requires Topological(linker, ordered) && m !in ordered && Resolved(linker, m)
    requires forall k :: 0 <= k < |m.imports| ==> linker[m.imports[k]] in ordered
    ensures Topological(linker, ordered + [m])
  {
    var s := ordered + [m];
    forall i | 0 <= i < |s|
      ensures ImportsFirst(linker, s, i)
    {
      if i < |ordered| {
        assert ImportsFirst(linker, ordered, i);
        assert s[..i] == ordered[..i];
      } else {
        assert s[..i] == ordered;
      }
    }
  }

  lemma {:induction false} NotOnPath(linker: Linker, marks: map<string, Mark>, path: seq<Module>, m: Module)
    requires OnPath(linker, marks, path) && Loaded(linker, m) && m.name !in marks
    ensures m !in path
  {
  }

  /** Meeting a module of the current path again closes a cycle. */
  lemma {:induction false} PathCloses(linker: Linker, path: seq<Module>, m: Module)
    requires IsPath(linker, path + [m]) && m in path
    ensures ShowsCycle(linker, (path + [m])[0], m.name, m)
  {
    var p := path + [m];
    var i :| 0 <= i < |path| && path[i] == m;
    PathPart(linker, p, 0, i);
    PathPart(linker, p, i, |path|);
    assert p[..i + 1][0] == p[0] && p[..i + 1][i] == m;
    assert p[i..][0] == m && p[i..][|path| - i] == m;
    assert p[0..i + 1] == p[..i + 1] && p[i..|path| + 1] == p[i..];
  }

  lemma {:induction false} PathPart(linker: Linker, p: seq<Module>, i: nat, j: nat)
    requires IsPath(linker, p) && i <= j < |p|
    ensures IsPath(linker, p[i..j + 1])
  {
    var q := p[i..j + 1];
    forall x | 0 <= x < |q| - 1
      ensures Edge(linker, q[x], q[x + 1])
    {
      assert Edge(linker, p[i + x], p[i + x + 1]);
    }
  }

  lemma {:induction false} PathGrows(linker: Linker, p: seq<Module>, b: Module)
    requires IsPath(linker, p) && Edge(linker, p[|p| - 1], b)
    ensures IsPath(linker, p + [b])
  {
    var q := p + [b];
    forall x | 0 <= x < |q| - 1
      ensures Edge(linker, q[x], q[x + 1])
    {
      if x < |p| - 1 { assert Edge(linker, p[x], p[x + 1]); }
    }
  }

  /** The end of a path is reached from its start. */
  lemma {:induction false} PathReaches(linker: Linker, p: seq<Module>)
    requires IsPath(linker, p)
    ensures Reaches(linker, p[0], p[|p| - 1])
  {
  }

  class Orderer {

    const linker: Linker
    var marks: map<string, Mark>
    var ordered: seq<Module>

    constructor (linker: Linker)
      ensures this.linker == linker && marks == map[] && ordered == []
    {
      this.linker := linker;
      marks := map[];
      ordered := [];
    }

    /**
     * Lists m after everything it imports, unless it is listed already, or
     * explains why that cannot be done. `path` is the chain of imports being
     * followed, from the entry up to but not including m.
     */
    method Visit(m: Module, ghost path: seq<Module>) returns (r: Outcome)
      requires DistinctNames(linker) && Loaded(linker, m)
      requires Finished(linker, marks, ordered) && OnPath(linker, marks, path)
      requires IsPath(linker, path + [m])
      modifies this
      ensures old(marks.Keys) <= marks.Keys
      ensures r.Ordered? ==> Finished(linker, marks, ordered) && OnPath(linker, marks, path)
      ensures r.Ordered? ==> m in ordered && old(ordered) <= ordered
      ensures r.Ordered? && m !in old(ordered) ==> ordered[|ordered| - 1] == m
      ensures r.Ordered? ==> Gathered(linker, m, old(ordered), ordered)
      ensures r.Failed? ==> Justified(linker, (path + [m])[0], r.fault)
      decreases Unmarked(linker, marks)
    {
      if m.name in marks {
        if marks[m.name] == Done {
          return Ordered;
        }
        assert Marked(marks, m, Visiting);
        PathCloses(linker, path, m);
        return Failed(Circular(m.name));
      }
      Entering(linker, marks, ordered, path, m);
      ghost var here := path + [m];
      PathReaches(linker, here);
      marks := marks[m.name := Visiting];
      var k := 0;
      while k < |m.imports|
        invariant k <= |m.imports|
        invariant old(marks.Keys) <= marks.Keys
        invariant Unmarked(linker, marks) < old(Unmarked(linker, marks))
        invariant Finished(linker, marks, ordered) && OnPath(linker, marks, here)
        invariant old(ordered) <= ordered
        invariant Gathered(linker, m, old(ordered), ordered)
        invariant ImportsListed(linker, m, k, ordered)
      {
        var id := m.imports[k];
        if id == 0 {
          assert ShowsMissing(linker, here[0], m.name, m);
          return Failed(MissingId(m.name));
        }
        if id !in linker {
          assert ShowsUnresolved(linker, here[0], m.name, id, m);
          return Failed(Unresolved(m.name, id));
        }
        var dep := linker[id];
        assert Edge(linker, m, dep);
        PathGrows(linker, here, dep);
        ghost var before := ordered;
        r := Visit(dep, here);
        if r.Failed? {
          assert (here + [dep])[0] == here[0];
          return r;
        }
        NewlyReached(linker, m, dep, old(ordered), before, ordered);
        MoreListed(linker, m, k, before, ordered);
        k := k + 1;
      }
      NotOnPath(linker, old(marks), path, m);
      Leaving(linker, marks, ordered, path, m);
      ReachesSelf(linker, m);
      marks := marks[m.name := Done];
      ordered := ordered + [m];
      return Ordered;
    }

    /** Starts from empty marks and an empty list and orders the entry module. */
    method Order(entry: Module) returns (r: Outcome)
      requires DistinctNames(linker) && Loaded(linker, entry)
      modifies this
      ensures r.Ordered? <==> Initialisable(linker, entry)
      ensures r.Failed? ==> Justified(linker, entry, r.fault)
      ensures r.Ordered? ==> Topological(linker, ordered)
      ensures r.Ordered? ==> forall m :: m in ordered <==> Reaches(linker, entry, m)
      ensures r.Ordered? ==> |ordered| > 0 && ordered[|ordered| - 1] == entry
    {
      marks := map[];
      ordered := [];
      assert [] + [entry] == [entry];
      r := Visit(entry, []);
      if r.Failed? {
        JustifiedRefutes(linker, entry, r.fault);
      } else {
        OrderIsSound(linker, ordered, entry);
      }
    }
  }

  lemma {:induction false} NewlyReached(linker: Linker, m: Module, dep: Module, start: seq<Module>, before: seq<Module>, after: seq<Module>)
    requires Edge(linker, m, dep)
    requires Gathered(linker, m, start, before) && Gathered(linker, dep, before, after)
    ensures Gathered(linker, m, start, after)
  {
    forall x | x in after && x !in start
      ensures Reaches(linker, m, x)
    {
      if x !in before {
        ReachesSelf(linker, m);
        ReachesEdge(linker, m, m, dep);
        ReachesTrans(linker, m, dep, x);
      }
    }
  }
}
