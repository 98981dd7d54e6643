/** Executing a program's modules in initialisation order, over any history of calls. */
module ModuleRun {

  import opened ModuleGraph
  import opened ModuleInit

  /** What a module's top-level body does when executed. */
  datatype Verdict = Value(value: int) | NoMain | Crash

  /** The outside world: whether a module's imports hydrate, and what its body does. */
  datatype World = World(links: Module -> bool, body: Module -> Verdict)

  /** A module is entered with the modules its imports are read from, and may complete. */
  datatype Event = Entered(m: Module, deps: seq<Module>) | Completed(m: Module)

  /** The modules marked as initialised, and everything that happened so far. */
  datatype State = State(initialized: set<Module>, trace: seq<Event>)

  datatype Run = Finished(state: State) | Stopped(state: State, at: Module)

  predicate Succeeds(world: World, m: Module, entry: Module)
  {
    && (m.imports == [] || world.links(m))
    && match world.body(m)
       case Value(_) => true
       case NoMain => m != entry
       case Crash => false
  }

  /**
   * What makes a module fail: its body crashes, it has imports that do not hydrate, or it
   * is the entry and has nothing to run. A library module may well have nothing to run.
   */
  predicate Fails(world: World, m: Module, entry: Module)
  {
    || world.body(m) == Crash
    || (m.imports != [] && !world.links(m))
    || (m == entry && world.body(entry) == NoMain)
  }

  lemma {:induction false} FailsExactly(world: World, m: Module, entry: Module)
    ensures Fails(world, m, entry) <==> !Succeeds(world, m, entry)
  {
  }

  /** Some module of the order that is not initialised yet fails. */
  ghost predicate SomeFails(order: seq<Module>, initialized: set<Module>, world: World, entry: Module)
  {
    exists i :: 0 <= i < |order| && order[i] !in initialized && Fails(world, order[i], entry)
  }

  lemma {:induction false} SomeFailsExactly(order: seq<Module>, s: State, world: World, entry: Module)
    ensures SomeFails(order, s.initialized, world, entry) <==> !AllPass(order, s, world, entry)
  {
    forall i | 0 <= i < |order|
      ensures Passes(s, world, entry, order[i]) <==> order[i] in s.initialized || !Fails(world, order[i], entry)
    {
      FailsExactly(world, order[i], entry);
    }
  }

  function Dependencies(linker: Linker, m: Module): (r: seq<Module>)
    requires Resolved(linker, m)
    ensures |r| == |m.imports| && forall k :: 0 <= k < |r| ==> r[k] == linker[m.imports[k]]
  {
    seq(|m.imports|, k requires 0 <= k < |m.imports| =>
      assert Resolvable(linker, m.imports[k]); linker[m.imports[k]])
  }

  function Enter(linker: Linker, m: Module, s: State): State
    requires Resolved(linker, m)
  {
    s.(trace := s.trace + [Entered(m, Dependencies(linker, m))])
  }

  function Complete(m: Module, s: State): State
  {
    State(s.initialized + {m}, s.trace + [Completed(m)])
  }

  predicate AllResolved(linker: Linker, order: seq<Module>)
  {
    forall i :: 0 <= i < |order| ==> Resolved(linker, order[i])
  }

  /** One pass over the order: initialised modules are skipped, the first failure stops. */
  function RunAll(linker: Linker, order: seq<Module>, entry: Module, s: State, world: World): Run
    requires AllResolved(linker, order)
  {
    if order == [] then Finished(s)
    else
      assert Resolved(linker, order[0]);
      if order[0] in s.initialized then RunAll(linker, order[1..], entry, s, world)
      else if Succeeds(world, order[0], entry) then
        RunAll(linker, order[1..], entry, Complete(order[0], Enter(linker, order[0], s)), world)
      else Stopped(Enter(linker, order[0], s), order[0])
  }

  // Where a pass stops.

  predicate Passes(s: State, world: World, entry: Module, m: Module)
  {
    m in s.initialized || Succeeds(world, m, entry)
  }

  function Members(order: seq<Module>): set<Module> { set m | m in order }

  /** Every module in the order is initialised or succeeds. */
  predicate AllPass(order: seq<Module>, s: State, world: World, entry: Module)
  {
    forall i :: 0 <= i < |order| ==> Passes(s, world, entry, order[i])
  }

  /** Initialising a module that is not in the order changes nothing for those that are. */
  lemma {:induction false} SameForOthers(order: seq<Module>, s: State, s': State, world: World, entry: Module, m: Module)
    requires s'.initialized == s.initialized + {m} && m !in order
    ensures AllPass(order, s', world, entry) <==> AllPass(order, s, world, entry)
  {
    forall i | 0 <= i < |order|
      ensures Passes(s', world, entry, order[i]) <==> Passes(s, world, entry, order[i])
    {
      assert order[i] in order;
    }
    if AllPass(order, s', world, entry) {
      forall i | 0 <= i < |order| ensures Passes(s, world, entry, order[i]) {
        assert Passes(s', world, entry, order[i]);
      }
    }
  }

  lemma {:induction false} FirstApart(order: seq<Module>)
    requires order != [] && NoDuplicates(order)
    ensures order[0] !in order[1..] && NoDuplicates(order[1..])
    ensures Members(order) == Members(order[1..]) + {order[0]}
  {
    var rest := order[1..];
    forall j | 0 <= j < |rest| ensures rest[j] != order[0] {
      assert rest[j] == order[j + 1];
    }
    assert order == [order[0]] + rest;
  }

  lemma {:induction false} AllPassFirst(order: seq<Module>, s: State, world: World, entry: Module)
    requires order != []
    ensures AllPass(order, s, world, entry) <==> Passes(s, world, entry, order[0]) && AllPass(order[1..], s, world, entry)
  {
    var rest := order[1..];
    if Passes(s, world, entry, order[0]) && AllPass(rest, s, world, entry) {
      forall i | 0 <= i < |order| ensures Passes(s, world, entry, order[i]) {
        if i > 0 { assert Passes(s, world, entry, rest[i - 1]); }
      }
    }
  }

  /** A pass over a list goes on with the rest after a module that passes. */
  lemma {:induction false} PassStep(linker: Linker, order: seq<Module>, entry: Module, s: State, world: World) returns (s': State)
    requires AllResolved(linker, order) && order != [] && Passes(s, world, entry, order[0])
    ensures s'.initialized == s.initialized + {order[0]}
    ensures AllResolved(linker, order[1..])
    ensures RunAll(linker, order, entry, s, world) == RunAll(linker, order[1..], entry, s', world)
  {
    s' := if order[0] in s.initialized then s else Complete(order[0], Enter(linker, order[0], s));
  }

  /** A pass finishes exactly when every module passes, and then all are initialised. */
  lemma {:induction false} FinishesExactly(linker: Linker, order: seq<Module>, entry: Module, s: State, world: World)
    requires AllResolved(linker, order) && NoDuplicates(order)
    ensures RunAll(linker, order, entry, s, world).Finished? <==> AllPass(order, s, world, entry)
    ensures AllPass(order, s, world, entry) ==>
              RunAll(linker, order, entry, s, world).state.initialized == s.initialized + Members(order)
  {
    if order == [] {
      assert Members(order) == {};
    } else {
      AllPassFirst(order, s, world, entry);
      if Passes(s, world, entry, order[0]) {
        var s' := PassStep(linker, order, entry, s, world);
        FirstApart(order);
        SameForOthers(order[1..], s, s', world, entry, order[0]);
        FinishesExactly(linker, order[1..], entry, s', world);
      }
    }
  }

  /** Once all its modules are initialised, running a program again executes nothing. */
  lemma {:induction false} NothingLeft(linker: Linker, order: seq<Module>, entry: Module, s: State, world: World)
    requires AllResolved(linker, order) && Members(order) <= s.initialized
    ensures RunAll(linker, order, entry, s, world) == Finished(s)
  {
    if order != [] {
      assert order[0] in Members(order);
      assert Members(order[1..]) <= Members(order);
      NothingLeft(linker, order[1..], entry, s, world);
    }
  }

  /** The pass stopped at order[i] with exactly the modules before it initialised. */
  predicate StopsAt(order: seq<Module>, entry: Module, s: State, world: World, i: int, run: Run)
  {
    && run.Stopped? && 0 <= i < |order| && run.at == order[i]
    && !Passes(s, world, entry, order[i])
    && AllPass(order[..i], s, world, entry)
    && run.state.initialized == s.initialized + Members(order[..i])
  }

  /** A pass that does not finish stops at the first module that does not pass. */
  lemma {:induction false} StopsExactly(linker: Linker, order: seq<Module>, entry: Module, s: State, world: World) returns (i: nat)
    requires AllResolved(linker, order) && NoDuplicates(order)
    requires RunAll(linker, order, entry, s, world).Stopped?
    ensures StopsAt(order, entry, s, world, i, RunAll(linker, order, entry, s, world))
  {
    if Passes(s, world, entry, order[0]) {
      var s' := PassStep(linker, order, entry, s, world);
      FirstApart(order);
      var j := StopsExactly(linker, order[1..], entry, s', world);
      i := j + 1;
      StopsLater(order, entry, s, s', world, j, RunAll(linker, order, entry, s, world));
    } else {
      i := 0;
      assert Members(order[..0]) == {};
    }
  }

  lemma {:induction false} StopsLater(order: seq<Module>, entry: Module, s: State, s': State, world: World, i: int, run: Run)
    requires order != [] && Passes(s, world, entry, order[0]) && s'.initialized == s.initialized + {order[0]}
    requires order[0] !in order[1..]
    requires StopsAt(order[1..], entry, s', world, i, run)
    ensures StopsAt(order, entry, s, world, i + 1, run)
  {
    var rest, front := order[1..], order[..i + 1];
    assert rest[i] == order[i + 1] && rest[i] in rest;
    assert front[1..] == rest[..i] && front == [order[0]] + rest[..i];
    assert forall m :: m in rest[..i] ==> m in rest;
    AllPassFirst(front, s, world, entry);
    SameForOthers(rest[..i], s, s', world, entry, order[0]);
    assert Members(front) == {order[0]} + Members(rest[..i]);
  }

  // What holds of every history.

  /**
   * Initialised means completed; a module is only ever entered when it has not
   * completed and everything it reads its imports from has; completion follows entry.
   */
  ghost predicate Sound(s: State)
  {
    && (forall m :: m in s.initialized <==> Completed(m) in s.trace)
    && (forall i :: 0 <= i < |s.trace| ==> SoundAt(s.trace, i))
  }

  predicate SoundAt(trace: seq<Event>, i: nat)
    requires i < |trace|
  {
    match trace[i]
    case Entered(m, deps) =>
      Completed(m) !in trace[..i] && forall k :: 0 <= k < |deps| ==> Completed(deps[k]) in trace[..i]
    case Completed(m) => i > 0 && trace[i - 1].Entered? && trace[i - 1].m == m
  }

  lemma {:induction false} EventAdded(s: State, e: Event, s': State)
    requires Sound(s) && s'.trace == s.trace + [e] && SoundAt(s'.trace, |s.trace|)
    requires s'.initialized == if e.Completed? then s.initialized + {e.m} else s.initialized
    ensures Sound(s')
  {
    forall m
      ensures m in s'.initialized <==> Completed(m) in s'.trace
    {
      assert Completed(m) in s'.trace <==> Completed(m) in s.trace || Completed(m) == e;
    }
    forall i | 0 <= i < |s'.trace|
      ensures SoundAt(s'.trace, i)
    {
      if i < |s.trace| {
        assert SoundAt(s.trace, i);
        assert s'.trace[..i] == s.trace[..i];
      }
    }
  }

  /** Entering a module that is not initialised but whose imports are keeps the history sound. */
  lemma {:induction false} EnterSound(linker: Linker, m: Module, s: State)
    requires Sound(s) && Resolved(linker, m) && m !in s.initialized
    requires forall k :: 0 <= k < |m.imports| ==> linker[m.imports[k]] in s.initialized
    ensures Sound(Enter(linker, m, s))
  {
    var s' := Enter(linker, m, s);
    assert s'.trace[..|s.trace|] == s.trace;
    EventAdded(s, Entered(m, Dependencies(linker, m)), s');
  }

  lemma {:induction false} CompleteSound(linker: Linker, m: Module, s: State)
    requires Resolved(linker, m) && Sound(Enter(linker, m, s))
    ensures Sound(Complete(m, Enter(linker, m, s)))
  {
    EventAdded(Enter(linker, m, s), Completed(m), Complete(m, Enter(linker, m, s)));
  }

  /** A pass over the rest of an order whose beginning is initialised keeps the history sound. */
  lemma {:induction false} PassSound(linker: Linker, before: seq<Module>, rest: seq<Module>, entry: Module, s: State, world: World)
    requires Sound(s) && Topological(linker, before + rest) && AllResolved(linker, rest)
    requires forall m :: m in before ==> m in s.initialized
    ensures Sound(RunAll(linker, rest, entry, s, world).state)
    decreases rest
  {
    if rest != [] {
      var m := rest[0];
      assert (before + rest)[|before|] == m && (before + rest)[..|before|] == before;
      assert ImportsFirst(linker, before + rest, |before|);
      var s' := s;
      if m !in s.initialized {
        EnterSound(linker, m, s);
        CompleteSound(linker, m, s);
        s' := Complete(m, Enter(linker, m, s));
      }
      assert before + rest == (before + [m]) + rest[1..];
      if Passes(s, world, entry, m) {
        PassSound(linker, before + [m], rest[1..], entry, s', world);
      }
    }
  }

  /** One call: its table of modules, its entry, the order found if any, and the world. */
  datatype Call = Call(linker: Linker, entry: Module, order: seq<Module>, found: bool, world: World)

  predicate Ordinary(call: Call)
  {
    call.found ==> Topological(call.linker, call.order)
  }

  lemma {:induction false} TopologicalResolved(linker: Linker, order: seq<Module>)
    requires Topological(linker, order)
    ensures AllResolved(linker, order)
  {
    forall i | 0 <= i < |order|
      ensures Resolved(linker, order[i])
    {
      assert ImportsFirst(linker, order, i);
    }
  }

  ghost function After(call: Call, s: State): State
    requires Ordinary(call)
  {
    if call.found then
      TopologicalResolved(call.linker, call.order);
      RunAll(call.linker, call.order, call.entry, s, call.world).state
    else s
  }

  ghost function History(calls: seq<Call>): State
    requires forall i :: 0 <= i < |calls| ==> Ordinary(calls[i])
  {
    if calls == [] then State({}, []) else After(calls[|calls| - 1], History(calls[..|calls| - 1]))
  }

  /** Whatever programs are run one after the other in one VM, the history is sound. */
  lemma {:induction false} EveryHistorySound(calls: seq<Call>)
    requires forall i :: 0 <= i < |calls| ==> Ordinary(calls[i])
    ensures Sound(History(calls))
  {
    if calls != [] {
      var last := calls[|calls| - 1];
      EveryHistorySound(calls[..|calls| - 1]);
      if last.found {
        TopologicalResolved(last.linker, last.order);
        assert [] + last.order == last.order;
        PassSound(last.linker, [], last.order, last.entry, History(calls[..|calls| - 1]), last.world);
      }
    }
  }

  /** In a sound history no body completes twice, nor is entered again after completing. */
  lemma {:induction false} CompletesOnce(s: State, i: nat, j: nat)
    requires Sound(s) && i < j < |s.trace| && s.trace[i].Completed?
    ensures s.trace[j].m != s.trace[i].m
  {
    assert SoundAt(s.trace, j);
    if s.trace[j].Completed? {
      assert SoundAt(s.trace, j - 1);
      if i < j - 1 { assert s.trace[..j - 1][i] == s.trace[i]; }
    } else {
      assert s.trace[..j][i] == s.trace[i];
    }
  }

  // Closure under imports, for runs that share one table of modules.

  predicate Closed(linker: Linker, initialized: set<Module>)
  {
    forall m :: m in initialized ==> Resolved(linker, m) && ImportsIn(linker, m, initialized)
  }

  predicate ImportsIn(linker: Linker, m: Module, initialized: set<Module>)
    requires Resolved(linker, m)
  {
    forall k :: 0 <= k < |m.imports| ==> linker[m.imports[k]] in initialized
  }

  /** Adding the beginning of an order keeps a set closed under imports. */
  lemma {:induction false} BeginningClosed(linker: Linker, order: seq<Module>, initialized: set<Module>, n: nat)
    requires Topological(linker, order) && n <= |order| && Closed(linker, initialized)
    ensures Closed(linker, initialized + Members(order[..n]))
  {
    var done := initialized + Members(order[..n]);
    forall m | m in done
      ensures Resolved(linker, m) && ImportsIn(linker, m, done)
    {
      if m in initialized {
        assert ImportsIn(linker, m, initialized);
      } else {
        var j :| 0 <= j < n && order[..n][j] == m;
        assert ImportsFirst(linker, order, j);
        EarlierIn(order, j, n);
      }
    }
  }

  lemma {:induction false} EarlierIn(order: seq<Module>, j: nat, n: nat)
    requires j <= n <= |order|
    ensures forall x :: x in order[..j] ==> x in Members(order[..n])
  {
    assert order[..n][..j] == order[..j];
  }

  lemma {:induction false} PassClosed(linker: Linker, order: seq<Module>, entry: Module, s: State, world: World)
    requires Topological(linker, order) && AllResolved(linker, order) && Closed(linker, s.initialized)
    ensures Closed(linker, RunAll(linker, order, entry, s, world).state.initialized)
  {
    if RunAll(linker, order, entry, s, world).Stopped? {
      var i := StopsExactly(linker, order, entry, s, world);
      BeginningClosed(linker, order, s.initialized, i);
    } else {
      FinishesExactly(linker, order, entry, s, world);
      BeginningClosed(linker, order, s.initialized, |order|);
      assert order[..|order|] == order;
    }
  }

  lemma {:induction false} SharedTableClosed(linker: Linker, calls: seq<Call>)
    requires forall i :: 0 <= i < |calls| ==> Ordinary(calls[i])
    requires forall i :: 0 <= i < |calls| ==> calls[i].linker == linker
    ensures Closed(linker, History(calls).initialized)
  {
    if calls != [] {
      var last := calls[|calls| - 1];
      SharedTableClosed(linker, calls[..|calls| - 1]);
      if last.found {
        TopologicalResolved(linker, last.order);
        PassClosed(linker, last.order, last.entry, History(calls[..|calls| - 1]), last.world);
      }
    }
  }

  // The executing method.

  datatype Result =
    | Ok(value: int)
    | BadGraph(fault: Fault)
    | ModuleFailed(at: Module)
    | EntryNotExecuted

  class Vm {

    var initialized: set<Module>
    ghost var trace: seq<Event>

    ghost function Abs(): State
      reads this
    {
      State(initialized, trace)
    }

    constructor ()
      ensures Abs() == State({}, [])
    {
      initialized, trace := {}, [];
    }

    /** Executes the modules in the order given, whose last one is the entry. */
    method RunModules(linker: Linker, modules: seq<Module>, entry: Module, world: World) returns (r: Result)
      requires AllResolved(linker, modules) && NoDuplicates(modules)
      requires |modules| > 0 && modules[|modules| - 1] == entry
      modifies this
      ensures Abs() == RunAll(linker, modules, entry, old(Abs()), world).state
      ensures match RunAll(linker, modules, entry, old(Abs()), world)
              case Stopped(_, at) => r == ModuleFailed(at)
              case Finished(_) =>
                r == if entry in old(initialized) then EntryNotExecuted else Answered(world.body(entry))
      ensures r.ModuleFailed? ==>
                || world.body(r.at) == Crash || (r.at.imports != [] && !world.links(r.at))
                || (r.at == entry && world.body(entry) == NoMain)
      ensures r.ModuleFailed? <==> SomeFails(modules, old(initialized), world, entry)
    {
      ghost var start := Abs();
      SomeFailsExactly(modules, start, world, entry);
      FinishesExactly(linker, modules, entry, start, world);
      var answer: Verdict := NoMain;
      var i := 0;
      while i < |modules|
        invariant i <= |modules| && AllResolved(linker, modules[i..])
        invariant RunAll(linker, modules, entry, start, world) == RunAll(linker, modules[i..], entry, Abs(), world)
        invariant entry in start.initialized ==> entry in initialized
        invariant i < |modules| && entry !in start.initialized ==> entry !in initialized
        invariant answer == if i < |modules| || entry in start.initialized then NoMain else world.body(entry)
        invariant i == |modules| && entry !in start.initialized ==> answer.Value?
      {
        var m := modules[i];
        assert modules[i..][0] == m && modules[i..][1..] == modules[i + 1..];
        LastIsEntry(modules, entry, i);
        if m !in initialized {
          trace := trace + [Entered(m, Dependencies(linker, m))];
          if m.imports != [] && !world.links(m) {
            return ModuleFailed(m);
          }
          var verdict := world.body(m);
          if verdict.Crash? || (verdict.NoMain? && m == entry) {
            return ModuleFailed(m);
          }
          if m == entry {
            answer := verdict;
          }
          initialized := initialized + {m};
          trace := trace + [Completed(m)];
        }
        i := i + 1;
      }
      return if answer.Value? then Ok(answer.value) else EntryNotExecuted;
    }

    /** Runs the program of `entry`; also reports the order it used, if there is one. */
    method Execute(linker: Linker, entry: Module, world: World) returns (r: Result, ghost order: seq<Module>)
      requires DistinctNames(linker) && Loaded(linker, entry)
      modifies this
      ensures r.BadGraph? <==> !Initialisable(linker, entry)
      ensures r.BadGraph? ==> Abs() == old(Abs()) && Justified(linker, entry, r.fault)
      ensures !r.BadGraph? ==> InitOrder(linker, entry, order)
      ensures !r.BadGraph? ==> AllResolved(linker, order) && Abs() == RunAll(linker, order, entry, old(Abs()), world).state
      ensures r.Ok? || r.EntryNotExecuted? <==> !r.BadGraph? && AllPass(order, old(Abs()), world, entry)
      ensures r.Ok? || r.EntryNotExecuted? ==> initialized == old(initialized) + Members(order)
      ensures r.Ok? ==> entry !in old(initialized) && world.body(entry) == Value(r.value)
      ensures r.EntryNotExecuted? ==> entry in old(initialized)
      ensures r.ModuleFailed? ==> exists i :: StopsAt(order, entry, old(Abs()), world, i, Stopped(Abs(), r.at))
      ensures r.ModuleFailed? <==> !r.BadGraph? && SomeFails(order, old(initialized), world, entry)
      ensures r.ModuleFailed? ==> r.at in order && r.at !in old(initialized)
      ensures r.ModuleFailed? ==>
                || world.body(r.at) == Crash || (r.at.imports != [] && !world.links(r.at))
                || (r.at == entry && world.body(entry) == NoMain)
      ensures Sound(old(Abs())) ==> Sound(Abs())
    {
      var orderer := new Orderer(linker);
      var sorted := orderer.Order(entry);
      order := orderer.ordered;
      if sorted.Failed? {
        return BadGraph(sorted.fault), order;
      }
      TopologicalResolved(linker, order);
      r := RunModules(linker, orderer.ordered, entry, world);
      FinishesExactly(linker, order, entry, old(Abs()), world);
      SomeFailsExactly(order, old(Abs()), world, entry);
      if Sound(old(Abs())) {
        assert [] + order == order;
        PassSound(linker, [], order, entry, old(Abs()), world);
      }
      if r.ModuleFailed? {
        ghost var i := StopsExactly(linker, order, entry, old(Abs()), world);
        FailsExactly(world, r.at, entry);
      } else {
        SuccessHasValue(order, old(Abs()), world, entry);
      }
    }
  }

  /** A library module without a main does not stop the program that imports it. */
  lemma {:induction false} LibraryRuns(linker: Linker, lib: Module, e: Module, s: State, world: World, n: int)
    requires Resolved(linker, lib) && Resolved(linker, e) && lib != e && lib !in s.initialized && e !in s.initialized
    requires lib.imports == [] && world.body(lib) == NoMain && world.links(e) && world.body(e) == Value(n)
    ensures AllResolved(linker, [lib, e])
    ensures RunAll(linker, [lib, e], e, s, world).Finished?
    ensures RunAll(linker, [lib, e], e, s, world).state.initialized == s.initialized + {lib, e}
  {
    var order := [lib, e];
    assert AllPass(order, s, world, e) by {
      FailsExactly(world, lib, e);
      FailsExactly(world, e, e);
    }
    FinishesExactly(linker, order, e, s, world);
    assert Members(order) == {lib, e};
  }

  function Answered(verdict: Verdict): Result
  {
    if verdict.Value? then Ok(verdict.value) else EntryNotExecuted
  }

  /** An order fit for running `entry`: all it reaches, imports first, the entry last. */
  ghost predicate InitOrder(linker: Linker, entry: Module, order: seq<Module>)
  {
    && Topological(linker, order) && |order| > 0 && order[|order| - 1] == entry
    && forall m :: m in order <==> Reaches(linker, entry, m)
  }

  lemma {:induction false} SuccessHasValue(order: seq<Module>, s: State, world: World, entry: Module)
    requires |order| > 0 && order[|order| - 1] == entry && AllPass(order, s, world, entry)
    ensures entry in s.initialized || world.body(entry).Value?
  {
    assert Passes(s, world, entry, order[|order| - 1]);
  }

  /** The entry is in the order's last place and nowhere else. */
  lemma {:induction false} LastIsEntry(order: seq<Module>, entry: Module, i: nat)
    requires i < |order| && NoDuplicates(order) && order[|order| - 1] == entry
    ensures order[i] == entry <==> i == |order| - 1
    ensures entry !in order[..i]
  {
    forall j | 0 <= j < i ensures order[..i][j] != entry {
      assert order[..i][j] == order[j];
    }
  }
}
