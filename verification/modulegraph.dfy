/** Modules, the linker's table, and paths through the import graph. */
module ModuleGraph {

  /**
   * A module: its name, the ids of the modules it imports in order (id 0 means
   * "missing"), and the checksum that stands for the rest of its content. The VM looks
   * modules up by checksum alone: equal checksums are taken to mean equal modules.
   */
  datatype Module = Module(name: string, imports: seq<nat>, checksum: nat)

  /** The linker maps module ids to modules; no two modules share a name. */
  type Linker = map<nat, Module>

  predicate DistinctNames(linker: Linker)
  {
    forall i, j :: i in linker && j in linker && linker[i].name == linker[j].name ==> i == j
  }

  predicate Loaded(linker: Linker, m: Module) { exists i :: i in linker && linker[i] == m }

  lemma {:induction false} NameIdentifies(linker: Linker, a: Module, b: Module)
    requires DistinctNames(linker) && Loaded(linker, a) && Loaded(linker, b) && a.name == b.name
    ensures a == b
  {
    var i :| i in linker && linker[i] == a;
    var j :| j in linker && linker[j] == b;
  }

  predicate Resolvable(linker: Linker, id: nat) { id != 0 && id in linker }

  /** Every import of m names a loaded module. */
  predicate Resolved(linker: Linker, m: Module)
  {
    forall k :: 0 <= k < |m.imports| ==> Resolvable(linker, m.imports[k])
  }

  predicate Edge(linker: Linker, a: Module, b: Module)
  {
    exists k :: 0 <= k < |a.imports| && Resolvable(linker, a.imports[k]) && linker[a.imports[k]] == b
  }

  predicate IsPath(linker: Linker, p: seq<Module>)
  {
    |p| >= 1 && forall i :: 0 <= i < |p| - 1 ==> Edge(linker, p[i], p[i + 1])
  }

  ghost predicate Reaches(linker: Linker, a: Module, b: Module)
  {
    exists p :: IsPath(linker, p) && p[0] == a && p[|p| - 1] == b
  }

  /** m imports its way back to itself. */
  ghost predicate OnCycle(linker: Linker, m: Module)
  {
    exists p :: IsPath(linker, p) && |p| >= 2 && p[0] == m && p[|p| - 1] == m
  }

  lemma {:induction false} ReachesSelf(linker: Linker, a: Module)
    ensures Reaches(linker, a, a)
  {
    assert IsPath(linker, [a]);
  }

  lemma {:induction false} PathJoin(linker: Linker, p: seq<Module>, q: seq<Module>)
    requires IsPath(linker, p) && IsPath(linker, q) && p[|p| - 1] == q[0]
    ensures IsPath(linker, p + q[1..])
    ensures (p + q[1..])[0] == p[0] && (p + q[1..])[|p + q[1..]| - 1] == q[|q| - 1]
  {
    var r := p + q[1..];
    forall i | 0 <= i < |r| - 1
      ensures Edge(linker, r[i], r[i + 1])
    {
      if i < |p| - 1 {
        assert Edge(linker, p[i], p[i + 1]);
      } else {
        assert r[i] == q[i - |p| + 1] && r[i + 1] == q[i - |p| + 2];
        assert Edge(linker, q[i - |p| + 1], q[i - |p| + 2]);
      }
    }
  }

  lemma {:induction false} ReachesTrans(linker: Linker, a: Module, b: Module, c: Module)
    requires Reaches(linker, a, b) && Reaches(linker, b, c)
    ensures Reaches(linker, a, c)
  {
    var p :| IsPath(linker, p) && p[0] == a && p[|p| - 1] == b;
    var q :| IsPath(linker, q) && q[0] == b && q[|q| - 1] == c;
    PathJoin(linker, p, q);
  }

  lemma {:induction false} ReachesEdge(linker: Linker, a: Module, b: Module, c: Module)
    requires Reaches(linker, a, b) && Edge(linker, b, c)
    ensures Reaches(linker, a, c)
  {
    assert IsPath(linker, [b, c]);
    ReachesTrans(linker, a, b, c);
  }

  /** Every import reachable from the entry resolves, and no import cycle is reachable. */
  ghost predicate Initialisable(linker: Linker, entry: Module)
  {
    && (forall m :: Reaches(linker, entry, m) ==> Resolved(linker, m))
    && (forall m :: Reaches(linker, entry, m) ==> !OnCycle(linker, m))
  }

  // Initialisation orders.

  predicate NoDuplicates(s: seq<Module>)
  {
    forall i, j :: 0 <= i < j < |s| ==> s[i] != s[j]
  }

  /** Every import of s[i] resolves to a module listed before position i. */
  predicate ImportsFirst(linker: Linker, s: seq<Module>, i: nat)
    requires i < |s|
  {
    Resolved(linker, s[i]) && forall k :: 0 <= k < |s[i].imports| ==> linker[s[i].imports[k]] in s[..i]
  }

  predicate Topological(linker: Linker, s: seq<Module>)
  {
    NoDuplicates(s) && forall i :: 0 <= i < |s| ==> ImportsFirst(linker, s, i)
  }

  /** In such an order an import always points to a smaller position. */
  lemma {:induction false} EdgeGoesDown(linker: Linker, s: seq<Module>, i: nat, b: Module) returns (j: nat)
    requires Topological(linker, s) && i < |s| && Edge(linker, s[i], b)
    ensures j < i && s[j] == b
  {
    var k :| 0 <= k < |s[i].imports| && Resolvable(linker, s[i].imports[k]) && linker[s[i].imports[k]] == b;
    assert ImportsFirst(linker, s, i);
    assert b in s[..i];
    j :| 0 <= j < i && s[..i][j] == b;
  }

  lemma {:induction false} PathGoesDown(linker: Linker, s: seq<Module>, p: seq<Module>, i: nat) returns (j: nat)
    requires Topological(linker, s) && IsPath(linker, p) && i < |s| && s[i] == p[0]
    ensures j < |s| && s[j] == p[|p| - 1] && j <= i && (|p| >= 2 ==> j < i)
    decreases p
  {
    if |p| == 1 {
      j := i;
    } else {
      assert Edge(linker, p[0], p[1]);
      var next := EdgeGoesDown(linker, s, i, p[1]);
      assert IsPath(linker, p[1..]) by {
        forall x | 0 <= x < |p[1..]| - 1
          ensures Edge(linker, p[1..][x], p[1..][x + 1])
        {
          assert Edge(linker, p[x + 1], p[x + 2]);
        }
      }
      j := PathGoesDown(linker, s, p[1..], next);
    }
  }

  /** A module listed in such an order can be initialised, and all it reaches is listed. */
  lemma {:induction false} OrderIsSound(linker: Linker, s: seq<Module>, entry: Module)
    requires Topological(linker, s) && entry in s
    ensures Initialisable(linker, entry)
    ensures forall m :: Reaches(linker, entry, m) ==> m in s
  {
    var i: nat :| i < |s| && s[i] == entry;
    forall m | Reaches(linker, entry, m)
      ensures m in s && Resolved(linker, m) && !OnCycle(linker, m)
    {
      var p :| IsPath(linker, p) && p[0] == entry && p[|p| - 1] == m;
      var j := PathGoesDown(linker, s, p, i);
      assert ImportsFirst(linker, s, j);
      if OnCycle(linker, m) {
        var c :| IsPath(linker, c) && |c| >= 2 && c[0] == m && c[|c| - 1] == m;
        var j' := PathGoesDown(linker, s, c, j);
        assert false;
      }
    }
  }
}
