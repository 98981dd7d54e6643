/**
 The loop programs that the benchmark comments describe, and their translation
 into instructions: expressions over local variables, assignment, `if` and
 `while`.
 */
module Loops {
  import opened Options
  import opened Machine
  import opened Assembler

  datatype Expr = Lit(n: int) | Var(x: nat) | Binop(op: Op, l: Expr, r: Expr)

  datatype Stmt =
    | Skip
    | Assign(x: nat, e: Expr)
    | Then(first: Stmt, second: Stmt)
    | When(c: Expr, body: Stmt)
    | While(c: Expr, body: Stmt)

  /** A function body: run the statement, then return the expression. */
  datatype Program = Program(body: Stmt, result: Expr)

  type Env = seq<Value>

  predicate ScopedExpr(e: Expr, locals: nat)
  {
    match e
    case Lit(n) => IsI32(n)
    case Var(x) => x < locals
    case Binop(_, l, r) => ScopedExpr(l, locals) && ScopedExpr(r, locals)
  }

  predicate Scoped(s: Stmt, locals: nat)
  {
    match s
    case Skip => true
    case Assign(x, e) => x < locals && ScopedExpr(e, locals)
    case Then(a, b) => Scoped(a, locals) && Scoped(b, locals)
    case When(c, b) => ScopedExpr(c, locals) && Scoped(b, locals)
    case While(c, b) => ScopedExpr(c, locals) && Scoped(b, locals)
  }

  // Meaning.

  /** The value of an expression; none if it errs or reads outside the locals. */
  function Eval(e: Expr, env: Env): Option<Value>
  {
    match e
    case Lit(n) => Some(I32(n))
    case Var(x) => if x < |env| then Some(env[x]) else None
    case Binop(op, l, r) =>
      var a, b := Eval(l, env), Eval(r, env);
      if a.None? || b.None? then None else Apply(op, a.value, b.value)
  }

  /** The environment after the statement, unless it errs or runs out of fuel. */
  function Exec(s: Stmt, env: Env, fuel: nat): (r: Option<Env>)
    ensures r.Some? ==> |r.value| == |env|
    decreases fuel, s
  {
    match s
    case Skip => Some(env)
    case Assign(x, e) =>
      var v := Eval(e, env);
      if v.None? || x >= |env| then None else Some(env[x := v.value])
    case Then(a, b) =>
      var mid := Exec(a, env, fuel);
      if mid.None? then None else Exec(b, mid.value, fuel)
    case When(c, b) =>
      var v := Eval(c, env);
      if v.None? then None else if Truthy(v.value) then Exec(b, env, fuel) else Some(env)
    case While(c, b) =>
      var v := Eval(c, env);
      if v.None? then None
      else if !Truthy(v.value) then Some(env)
      else if fuel == 0 then None
      else
        var mid := Exec(b, env, fuel - 1);
        if mid.None? then None else Exec(s, mid.value, fuel - 1)
  }

  lemma {:induction false} MoreFuel(s: Stmt, env: Env, fuel: nat, more: nat)
    requires fuel <= more
    requires Exec(s, env, fuel).Some?
    ensures Exec(s, env, more) == Exec(s, env, fuel)
    decreases fuel, s
  {
    match s {
      case Skip =>
      case Assign(_, _) =>
      case Then(a, b) =>
        MoreFuel(a, env, fuel, more);
        MoreFuel(b, Exec(a, env, fuel).value, fuel, more);
      case When(c, b) =>
        if Truthy(Eval(c, env).value) {
          MoreFuel(b, env, fuel, more);
        }
      case While(c, b) =>
        if Truthy(Eval(c, env).value) {
          MoreFuel(b, env, fuel - 1, more - 1);
          MoreFuel(s, Exec(b, env, fuel - 1).value, fuel - 1, more - 1);
        }
    }
  }

  // Translation.

  function CompileExpr(e: Expr): seq<Instr>
  {
    match e
    case Lit(n) => [Const(n)]
    case Var(x) => [Load(x)]
    case Binop(op, l, r) => CompileExpr(l) + CompileExpr(r) + [Bin(op)]
  }

  function Length(s: Stmt): nat
  {
    match s
    case Skip => 0
    case Assign(_, e) => |CompileExpr(e)| + 1
    case Then(a, b) => Length(a) + Length(b)
    case When(c, b) => |CompileExpr(c)| + 1 + Length(b)
    case While(c, b) => |CompileExpr(c)| + 1 + Length(b) + 1
  }

  /** Test, and skip the body when the test fails. */
  function WhenCode(test: seq<Instr>, body: seq<Instr>, base: nat): (r: seq<Instr>)
    ensures |r| == |test| + 1 + |body|
  {
    test + [Goto(IfFalse, base + |test| + 1 + |body|)] + body
  }

  /** Test, leave when the test fails, otherwise run the body and go round again. */
  function LoopCode(test: seq<Instr>, body: seq<Instr>, base: nat): (r: seq<Instr>)
    ensures |r| == |test| + 1 + |body| + 1
  {
    test + [Goto(IfFalse, base + |test| + 1 + |body| + 1)] + body + [Goto(Always, base)]
  }

  /** The instructions of a statement whose first instruction has index base. */
  function Compile(s: Stmt, base: nat): (r: seq<Instr>)
    ensures |r| == Length(s)
  {
    match s
    case Skip => []
    case Assign(x, e) => CompileExpr(e) + [Put(x)]
    case Then(a, b) => Compile(a, base) + Compile(b, base + Length(a))
    case When(c, b) => WhenCode(CompileExpr(c), Compile(b, base + |CompileExpr(c)| + 1), base)
    case While(c, b) => LoopCode(CompileExpr(c), Compile(b, base + |CompileExpr(c)| + 1), base)
  }

  function CompileProgram(q: Program): seq<Instr>
  {
    Compile(q.body, 0) + CompileExpr(q.result) + [Ret]
  }

  predicate CodeAt(p: seq<Instr>, at: nat, code: seq<Instr>)
  {
    at + |code| <= |p| && p[at..at + |code|] == code
  }

  lemma {:induction false} SplitCode(p: seq<Instr>, at: nat, a: seq<Instr>, b: seq<Instr>)
    requires CodeAt(p, at, a + b)
    ensures CodeAt(p, at, a) && CodeAt(p, at + |a|, b)
  {
    assert p[at..at + |a|] == p[at..at + |a + b|][..|a|];
    assert p[at + |a|..at + |a + b|] == p[at..at + |a + b|][|a|..];
  }

  lemma {:induction false} FirstCode(p: seq<Instr>, at: nat, i: Instr)
    requires CodeAt(p, at, [i])
    ensures p[at] == i
  {
    assert p[at] == p[at..at + 1][0];
  }

  /** The code of an expression pushes the expression's value. */
  lemma {:induction false} ExprRuns(p: seq<Instr>, locals: nat, at: nat, e: Expr, env: Env, above: seq<Value>)
    requires CodeAt(p, at, CompileExpr(e)) && |env| == locals
    requires Eval(e, env).Some?
    ensures Reaches(p, locals, At(at, env + above),
                    At(at + |CompileExpr(e)|, env + above + [Eval(e, env).value]))
    decreases e, 1
  {
    hide Reaches;
    match e {
      case Lit(n) =>
        FirstCode(p, at, Const(n));
        ReachesNext(p, locals, At(at, env + above));
      case Var(x) =>
        FirstCode(p, at, Load(x));
        ReachesNext(p, locals, At(at, env + above));
      case Binop(op, l, r) => OperandsRun(p, locals, at, op, l, r, env, above);
    }
  }

  lemma {:induction false} OperandsRun(p: seq<Instr>, locals: nat, at: nat, op: Op, l: Expr, r: Expr, env: Env, above: seq<Value>)
    requires CodeAt(p, at, CompileExpr(Binop(op, l, r))) && |env| == locals
    requires Eval(Binop(op, l, r), env).Some?
    ensures Reaches(p, locals, At(at, env + above),
                    At(at + |CompileExpr(Binop(op, l, r))|, env + above + [Eval(Binop(op, l, r), env).value]))
    decreases Binop(op, l, r), 0
  {
    var cl, cr := CompileExpr(l), CompileExpr(r);
    var vl, vr := Eval(l, env).value, Eval(r, env).value;
    var mid, end := at + |cl|, at + |cl| + |cr|;
    SplitCode(p, at, cl + cr, [Bin(op)]);
    SplitCode(p, at, cl, cr);
    FirstCode(p, end, Bin(op));
    hide Reaches, CodeAt;
    ExprRuns(p, locals, at, l, env, above);
    assert env + above + [vl] == env + (above + [vl]);
    ExprRuns(p, locals, mid, r, env, above + [vl]);
    ReachesTrans(p, locals, At(at, env + above), At(mid, env + above + [vl]), At(end, env + (above + [vl]) + [vr]));
    assert env + (above + [vl]) + [vr] == env + above + [vl, vr];
    BinopRuns(p, locals, at, end, op, env + above, vl, vr);
  }

  lemma {:induction false} BinopRuns(p: seq<Instr>, locals: nat, from: nat, at: nat, op: Op, st: seq<Value>, a: Value, b: Value)
    requires at < |p| && p[at] == Bin(op) && Apply(op, a, b).Some?
    requires Reaches(p, locals, At(from, st), At(at, st + [a, b]))
    ensures Reaches(p, locals, At(from, st), At(at + 1, st + [Apply(op, a, b).value]))
  {
    var s := At(at, st + [a, b]);
    assert s.stack[..|s.stack| - 2] == st;
    ReachesNext(p, locals, s);
    ReachesTrans(p, locals, At(from, st), s, AStep(p, locals, s));
  }

  /** The code of a condition and its conditional jump. */
  lemma {:induction false} ConditionRuns(p: seq<Instr>, locals: nat, at: nat, c: Expr, exit: nat, env: Env)
    requires CodeAt(p, at, CompileExpr(c) + [Goto(IfFalse, exit)]) && |env| == locals
    requires Eval(c, env).Some?
    ensures Reaches(p, locals, At(at, env),
                    At(if Truthy(Eval(c, env).value) then at + |CompileExpr(c)| + 1 else exit, env))
  {
    var cc := CompileExpr(c);
    SplitCode(p, at, cc, [Goto(IfFalse, exit)]);
    FirstCode(p, at + |cc|, Goto(IfFalse, exit));
    assert env + [] == env;
    ExprRuns(p, locals, at, c, env, []);
    var s := At(at + |cc|, env + [Eval(c, env).value]);
    assert s.stack[..|s.stack| - 1] == env;
    ReachesNext(p, locals, s);
    ReachesTrans(p, locals, At(at, env), s, AStep(p, locals, s));
  }

  lemma {:induction false} AssignRuns(p: seq<Instr>, locals: nat, at: nat, x: nat, e: Expr, env: Env)
    requires CodeAt(p, at, CompileExpr(e) + [Put(x)]) && |env| == locals
    requires Eval(e, env).Some? && x < locals
    ensures Reaches(p, locals, At(at, env),
                    At(at + |CompileExpr(e)| + 1, env[x := Eval(e, env).value]))
  {
    hide Reaches, Eval;
    var ce := CompileExpr(e);
    SplitCode(p, at, ce, [Put(x)]);
    FirstCode(p, at + |ce|, Put(x));
    assert env + [] == env;
    ExprRuns(p, locals, at, e, env, []);
    var s := At(at + |ce|, env + [Eval(e, env).value]);
    assert s.stack[..|s.stack| - 1] == env;
    ReachesNext(p, locals, s);
    ReachesTrans(p, locals, At(at, env), s, AStep(p, locals, s));
  }

  /**
   Translation preserves meaning: whenever a statement runs to completion, its
   code goes from its first instruction to just past its last one and leaves the
   statement's environment on an otherwise empty stack.
   */
  lemma {:induction false} StmtRuns(p: seq<Instr>, at: nat, s: Stmt, env: Env, fuel: nat)
    requires CodeAt(p, at, Compile(s, at))
    requires Exec(s, env, fuel).Some?
    ensures Reaches(p, |env|, At(at, env), At(at + Length(s), Exec(s, env, fuel).value))
    decreases fuel, s, 1
  {
    match s {
      case Skip => ReachesSelf(p, |env|, At(at, env));
      case Assign(x, e) => AssignRuns(p, |env|, at, x, e, env);
      case Then(a, b) => ThenRuns(p, at, a, b, env, fuel);
      case When(c, b) => WhenRuns(p, at, c, b, env, fuel);
      case While(c, b) => WhileRuns(p, at, c, b, env, fuel);
    }
  }

  lemma {:induction false} ThenRuns(p: seq<Instr>, at: nat, a: Stmt, b: Stmt, env: Env, fuel: nat)
    requires CodeAt(p, at, Compile(Then(a, b), at))
    requires Exec(Then(a, b), env, fuel).Some?
    ensures Reaches(p, |env|, At(at, env), At(at + Length(Then(a, b)), Exec(Then(a, b), env, fuel).value))
    decreases fuel, Then(a, b), 0
  {
    hide Reaches, CodeAt;
    SplitCode(p, at, Compile(a, at), Compile(b, at + Length(a)));
    var mid := Exec(a, env, fuel).value;
    var end := Exec(b, mid, fuel).value;
    var s, t, u := At(at, env), At(at + Length(a), mid), At(at + Length(a) + Length(b), end);
    assert Reaches(p, |env|, s, t) by { StmtRuns(p, at, a, env, fuel); }
    assert Reaches(p, |env|, t, u) by { StmtRuns(p, at + Length(a), b, mid, fuel); }
    ReachesTrans(p, |env|, s, t, u);
  }

  lemma {:induction false} WhenRuns(p: seq<Instr>, at: nat, c: Expr, b: Stmt, env: Env, fuel: nat)
    requires CodeAt(p, at, Compile(When(c, b), at))
    requires Exec(When(c, b), env, fuel).Some?
    ensures Reaches(p, |env|, At(at, env), At(at + Length(When(c, b)), Exec(When(c, b), env, fuel).value))
    decreases fuel, When(c, b), 0
  {
    hide Reaches, Eval;
    var start, end := at + |CompileExpr(c)| + 1, at + Length(When(c, b));
    SplitCode(p, at, CompileExpr(c) + [Goto(IfFalse, end)], Compile(b, start));
    ConditionRuns(p, |env|, at, c, end, env);
    if Truthy(Eval(c, env).value) {
      StmtRuns(p, start, b, env, fuel);
      ReachesTrans(p, |env|, At(at, env), At(start, env), At(end, Exec(b, env, fuel).value));
    }
  }

  lemma {:induction false} SplitLast(p: seq<Instr>, at: nat, a: seq<Instr>, b: seq<Instr>, i: Instr)
    requires CodeAt(p, at, a + b + [i])
    ensures CodeAt(p, at, a) && CodeAt(p, at + |a|, b) && p[at + |a| + |b|] == i
  {
    SplitCode(p, at, a + b, [i]);
    SplitCode(p, at, a, b);
    FirstCode(p, at + |a| + |b|, i);
  }

  lemma {:induction false} WhileCode(p: seq<Instr>, at: nat, c: Expr, b: Stmt, start: nat, end: nat)
    requires CodeAt(p, at, Compile(While(c, b), at))
    requires start == at + |CompileExpr(c)| + 1 && end == at + Length(While(c, b))
    ensures CodeAt(p, at, CompileExpr(c) + [Goto(IfFalse, end)])
    ensures CodeAt(p, start, Compile(b, start))
    ensures start + Length(b) < |p| && p[start + Length(b)] == Goto(Always, at)
  {
    SplitLast(p, at, CompileExpr(c) + [Goto(IfFalse, end)], Compile(b, start), Goto(Always, at));
  }

  lemma {:induction false} WhileRuns(p: seq<Instr>, at: nat, c: Expr, b: Stmt, env: Env, fuel: nat)
    requires CodeAt(p, at, Compile(While(c, b), at))
    requires Exec(While(c, b), env, fuel).Some?
    ensures Reaches(p, |env|, At(at, env), At(at + Length(While(c, b)), Exec(While(c, b), env, fuel).value))
    decreases fuel, While(c, b), 0
  {
    var end := at + Length(While(c, b));
    WhileCode(p, at, c, b, at + |CompileExpr(c)| + 1, end);
    ConditionRuns(p, |env|, at, c, end, env);
    if Truthy(Eval(c, env).value) {
      var mid := Exec(b, env, fuel - 1).value;
      IterationRuns(p, at, c, b, env, fuel);
      WhileRuns(p, at, c, b, mid, fuel - 1);
      ReachesTrans(p, |env|, At(at, env), At(at, mid), At(end, Exec(While(c, b), mid, fuel - 1).value));
    }
  }

  /** One round of a loop comes back to the loop's first instruction. */
  lemma {:induction false} IterationRuns(p: seq<Instr>, at: nat, c: Expr, b: Stmt, env: Env, fuel: nat)
    requires CodeAt(p, at, Compile(While(c, b), at)) && fuel > 0
    requires Eval(c, env).Some? && Truthy(Eval(c, env).value)
    requires Exec(b, env, fuel - 1).Some?
    ensures Reaches(p, |env|, At(at, env), At(at, Exec(b, env, fuel - 1).value))
    decreases fuel, b, 2
  {
    var start, end := at + |CompileExpr(c)| + 1, at + Length(While(c, b));
    WhileCode(p, at, c, b, start, end);
    ConditionRuns(p, |env|, at, c, end, env);
    StmtRuns(p, start, b, env, fuel - 1);
    BackEdge(p, |env|, At(at, env), At(start, env), start + Length(b), Exec(b, env, fuel - 1).value);
  }

  lemma {:induction false} BackEdge(p: seq<Instr>, locals: nat, head: AState, entry: AState, last: nat, env: Env)
    requires head.At? && last < |p| && p[last] == Goto(Always, head.pc)
    requires Reaches(p, locals, head, entry) && Reaches(p, locals, entry, At(last, env))
    ensures Reaches(p, locals, head, At(head.pc, env))
  {
    ReachesTrans(p, locals, head, entry, At(last, env));
    ReachesNext(p, locals, At(last, env));
    ReachesTrans(p, locals, head, At(last, env), At(head.pc, env));
  }

  /** A completed function returns its result with only the locals left behind. */
  lemma {:induction false} ProgramRuns(q: Program, env: Env, fuel: nat)
    requires Exec(q.body, env, fuel).Some?
    requires Eval(q.result, Exec(q.body, env, fuel).value).Some?
    ensures var end := Exec(q.body, env, fuel).value;
            Reaches(CompileProgram(q), |env|, At(0, env), Done(Eval(q.result, end).value, end))
  {
    var p := CompileProgram(q);
    var body, res := Compile(q.body, 0), CompileExpr(q.result);
    var end := Exec(q.body, env, fuel).value;
    assert CodeAt(p, 0, body + res + [Ret]);
    SplitCode(p, 0, body + res, [Ret]);
    SplitCode(p, 0, body, res);
    FirstCode(p, |body| + |res|, Ret);
    StmtRuns(p, 0, q.body, env, fuel);
    ResultRuns(p, |body|, q.result, end);
    ReachesTrans(p, |env|, At(0, env), At(|body|, end), Done(Eval(q.result, end).value, end));
  }

  lemma {:induction false} ResultRuns(p: seq<Instr>, at: nat, e: Expr, env: Env)
    requires CodeAt(p, at, CompileExpr(e)) && at + |CompileExpr(e)| < |p|
    requires p[at + |CompileExpr(e)|] == Ret
    requires Eval(e, env).Some?
    ensures Reaches(p, |env|, At(at, env), Done(Eval(e, env).value, env))
  {
    assert env + [] == env;
    ExprRuns(p, |env|, at, e, env, []);
    var s := At(at + |CompileExpr(e)|, env + [Eval(e, env).value]);
    assert s.stack[..|s.stack| - 1] == env;
    ReachesNext(p, |env|, s);
    ReachesTrans(p, |env|, At(at, env), s, AStep(p, |env|, s));
  }

  // Every compiled program can be encoded.

  /** Jumps stay within [lo, hi] and immediates within their fields. */
  predicate Placed(i: Instr, lo: nat, hi: nat, locals: nat)
  {
    match i
    case Const(n) => IsI32(n)
    case Load(x) => x < locals
    case Put(x) => x < locals
    case Goto(_, t) => lo <= t <= hi
    case _ => true
  }

  predicate AllPlaced(code: seq<Instr>, lo: nat, hi: nat, locals: nat)
  {
    forall k :: 0 <= k < |code| ==> Placed(code[k], lo, hi, locals)
  }

  lemma {:induction false} Widen(code: seq<Instr>, lo: nat, hi: nat, lo': nat, hi': nat, locals: nat)
    requires AllPlaced(code, lo, hi, locals) && lo' <= lo && hi <= hi'
    ensures AllPlaced(code, lo', hi', locals)
  {
  }

  lemma {:induction false} ExprPlaced(e: Expr, at: nat, locals: nat)
    requires ScopedExpr(e, locals)
    ensures AllPlaced(CompileExpr(e), at, at, locals)
  {
    match e {
      case Binop(_, l, r) =>
        ExprPlaced(l, at, locals);
        ExprPlaced(r, at, locals);
      case _ =>
    }
  }

  lemma {:induction false} PlacedJoin(a: seq<Instr>, b: seq<Instr>, lo: nat, hi: nat, locals: nat)
    requires AllPlaced(a, lo, hi, locals) && AllPlaced(b, lo, hi, locals)
    ensures AllPlaced(a + b, lo, hi, locals)
  {
    hide Placed;
  }

  lemma {:induction false} OnePlaced(i: Instr, lo: nat, hi: nat, locals: nat)
    requires Placed(i, lo, hi, locals)
    ensures AllPlaced([i], lo, hi, locals)
  {
  }

  lemma {:induction false} BothPlaced(a: seq<Instr>, b: seq<Instr>, lo: nat, mid: nat, hi: nat, locals: nat)
    requires AllPlaced(a, lo, mid, locals) && AllPlaced(b, mid, hi, locals) && lo <= mid <= hi
    ensures AllPlaced(a + b, lo, hi, locals)
  {
    Widen(a, lo, mid, lo, hi, locals);
    Widen(b, mid, hi, lo, hi, locals);
    PlacedJoin(a, b, lo, hi, locals);
  }

  lemma {:induction false} StmtPlaced(s: Stmt, base: nat, locals: nat)
    requires Scoped(s, locals)
    ensures AllPlaced(Compile(s, base), base, base + Length(s), locals)
    decreases s, 0
  {
    var end := base + Length(s);
    hide AllPlaced;
    match s {
      case Skip => NothingPlaced(base, locals);
      case Assign(x, e) =>
        ExprPlaced(e, base, locals);
        OnePlaced(Put(x), base, end, locals);
        BothPlaced(CompileExpr(e), [Put(x)], base, base, end, locals);
      case Then(a, b) =>
        var mid := base + Length(a);
        StmtPlaced(a, base, locals);
        StmtPlaced(b, mid, locals);
        BothPlaced(Compile(a, base), Compile(b, mid), base, mid, end, locals);
      case When(c, b) => GuardedPlaced(c, b, base, end, locals);
      case While(c, b) =>
        GuardedPlaced(c, b, base, end, locals);
        OnePlaced(Goto(Always, base), base, end, locals);
        PlacedJoin(CompileExpr(c) + [Goto(IfFalse, end)] + Compile(b, base + |CompileExpr(c)| + 1),
                   [Goto(Always, base)], base, end, locals);
    }
  }

  lemma {:induction false} NothingPlaced(at: nat, locals: nat)
    ensures AllPlaced([], at, at, locals)
  {
  }

  lemma {:induction false} GuardedPlaced(c: Expr, b: Stmt, base: nat, end: nat, locals: nat)
    requires ScopedExpr(c, locals) && Scoped(b, locals)
    requires base + |CompileExpr(c)| + 1 + Length(b) <= end
    ensures AllPlaced(CompileExpr(c) + [Goto(IfFalse, end)] + Compile(b, base + |CompileExpr(c)| + 1),
                      base, end, locals)
    decreases b, 1
  {
    var start := base + |CompileExpr(c)| + 1;
    ExprPlaced(c, base, locals);
    Widen(CompileExpr(c), base, base, base, end, locals);
    StmtPlaced(b, start, locals);
    Widen(Compile(b, start), start, start + Length(b), base, end, locals);
  }

  lemma {:induction false} CompiledEncodable(q: Program, locals: nat, w: Width)
    requires Scoped(q.body, locals) && ScopedExpr(q.result, locals) && locals <= 0x1_0000
    requires |CompileProgram(q)| <= 6000
    ensures Encodable(CompileProgram(q), w)
  {
    var p := CompileProgram(q);
    StmtPlaced(q.body, 0, locals);
    Widen(Compile(q.body, 0), 0, Length(q.body), 0, |p|, locals);
    ExprPlaced(q.result, 0, locals);
    Widen(CompileExpr(q.result), 0, 0, 0, |p|, locals);
    assert AllPlaced(p, 0, |p|, locals);
    forall k | 0 <= k < |p| && p[k].Goto?
      ensures Bytes.FitsSigned(Distance(p, k, w), w)
    {
      ShortDistance(p, w, k);
    }
  }

  /** The function started with null locals ends in the given environment and returns v. */
  ghost predicate Returns(q: Program, locals: nat, v: Value, end: Env)
  {
    exists fuel: nat ::
      Exec(q.body, Entry(locals).stack, fuel) == Some(end) && Eval(q.result, end) == Some(v)
  }

  /**
   From loop program to bytes: if the loop program returns v, the machine run on
   its encoding halts, returns v, and leaves nothing but the locals behind.
   */
  lemma {:induction false} BytesReturn(q: Program, locals: nat, w: Width, v: Value, end: Env)
    requires Encodable(CompileProgram(q), w)
    requires Returns(q, locals, v, end)
    ensures Yields(Encode(CompileProgram(q), w), w, locals, v)
  {
    var p, env := CompileProgram(q), Entry(locals).stack;
    var fuel: nat :| Exec(q.body, env, fuel) == Some(end) && Eval(q.result, end) == Some(v);
    ProgramRuns(q, env, fuel);
    var k: nat :| ARun(p, locals, At(0, env), k) == Done(v, end);
    RunSimulates(p, w, locals, At(0, env), Done(v, end), k);
    assert ReturnsAt(Encode(p, w), w, locals, v, k);
  }
}
