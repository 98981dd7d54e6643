/**
 What the nested workloads do when their two-byte jump operands are read with four
 bytes: a jump not taken continues two bytes inside the next instruction.
 */
module Skewed {
  import opened Bytes
  import opened Options
  import opened Machine
  import opened Assembler
  import opened Loops
  import Widths
  import W = Workloads
  import Results
  import Sums

  // Steps of programs encoded for two bytes on the four-byte machine.

  predicate Encoded(p: seq<Instr>, code: seq<byte>)
  {
    Encodable(p, 2) && code == Encode(p, 2)
  }

  /** The machine at instruction k. */
  function At(p: seq<Instr>, k: nat, stack: seq<Value>): State
    requires k <= |p|
  {
    Running(Offset(p, k, 2), stack)
  }

  predicate Goes(code: seq<byte>, locals: nat, s: State, k: nat, t: State)
  {
    Run(code, 4, locals, s, k) == t
  }

  lemma {:induction false} GoesOn(code: seq<byte>, locals: nat, s: State, i: nat, t: State, k: nat, u: State)
    requires Goes(code, locals, s, i, t) && Goes(code, locals, t, k, u)
    ensures Goes(code, locals, s, i + k, u)
  {
    Widths.RunAdd(code, 4, locals, s, i, k);
  }

  lemma {:induction false} GoesOne(code: seq<byte>, locals: nat, s: State, t: State)
    requires Step(code, 4, locals, s) == t
    ensures Goes(code, locals, s, 1, t)
  {
    assert Run(code, 4, locals, t, 0) == t;
  }

  /** An instruction other than a jump does the same under either width. */
  lemma {:induction false} PlainStep(p: seq<Instr>, code: seq<byte>, locals: nat, k: nat, stack: seq<Value>)
    requires Encoded(p, code) && k < |p| && !p[k].Goto?
    ensures Goes(code, locals, At(p, k, stack), 1, Effect(p[k], stack, Offset(p, k + 1, 2), 0))
  {
    EncodedHolds(p, 2, k);
    StepEffect(code, 4, locals, Offset(p, k, 2), stack, p[k], Offset(p, k + 1, 2), 0);
    GoesOne(code, locals, At(p, k, stack), Effect(p[k], stack, Offset(p, k + 1, 2), 0));
  }

  lemma {:induction false} StoreTop(next: int, env: seq<Value>, x: nat, v: Value)
    requires x < |env|
    ensures Store(next, env + [v], x) == Running(next, env[x := v])
  {
    assert (env + [v])[..|env|] == env;
  }

  /** Setting a local to zero. */
  lemma {:induction false} ZeroAt(p: seq<Instr>, code: seq<byte>, locals: nat, k: nat, x: nat, env: seq<Value>)
    requires Encoded(p, code) && k + 2 <= |p| && p[k] == Const(0) && p[k + 1] == Put(x) && x < |env|
    ensures Goes(code, locals, At(p, k, env), 2, At(p, k + 2, env[x := I32(0)]))
  {
    PlainStep(p, code, locals, k, env);
    PlainStep(p, code, locals, k + 1, env + [I32(0)]);
    StoreTop(Offset(p, k + 2, 2), env, x, I32(0));
    GoesOn(code, locals, At(p, k, env), 1, At(p, k + 1, env + [I32(0)]), 1, At(p, k + 2, env[x := I32(0)]));
  }

  lemma {:induction false} CompareTop(next: int, env: seq<Value>, a: Value, n: int)
    ensures Binary(next, env + [a] + [I32(n)], Lt) == Running(next, env + [Bool(AsI32(a) < n)])
  {
    var s := env + [a] + [I32(n)];
    assert s[..|env|] == env && s[|env|] == a && s[|env| + 1] == I32(n);
  }

  /** Comparing a local with a constant. */
  lemma {:induction false} TestAt(p: seq<Instr>, code: seq<byte>, locals: nat, k: nat, x: nat, n: int, env: seq<Value>)
    requires Encoded(p, code) && k + 3 <= |p| && x < |env|
    requires p[k] == Load(x) && p[k + 1] == Const(n) && p[k + 2] == Bin(Lt)
    ensures Goes(code, locals, At(p, k, env), 3, At(p, k + 3, env + [Bool(AsI32(env[x]) < n)]))
  {
    var a := env[x];
    var s, t := At(p, k, env), At(p, k + 1, env + [a]);
    var u, end := At(p, k + 2, env + [a] + [I32(n)]), At(p, k + 3, env + [Bool(AsI32(a) < n)]);
    PlainStep(p, code, locals, k, env);
    PlainStep(p, code, locals, k + 1, env + [a]);
    PlainStep(p, code, locals, k + 2, env + [a] + [I32(n)]);
    CompareTop(Offset(p, k + 3, 2), env, a, n);
    GoesOn(code, locals, s, 1, t, 1, u);
    GoesOn(code, locals, s, 2, u, 1, end);
  }

  // A conditional jump followed by a zero constant.

  predicate Guard(p: seq<Instr>, k: nat)
  {
    k + 2 <= |p| && p[k].Goto? && p[k].j == IfFalse && p[k + 1] == Const(0)
  }

  lemma {:induction false} ZeroConstant(rel: int)
    ensures InstrBytes(Const(0), 2, rel) == [CONST_I32, 0, 0, 0, 0]
  {
    assert LeBytes(0, 1) == [0];
    assert LeBytes(0, 2) == [0, 0];
    assert LeBytes(0, 3) == [0, 0, 0];
    assert LeBytes(0, 4) == [0, 0, 0, 0];
  }

  lemma {:induction false} FiveHeld(code: seq<byte>, i: nat, s: seq<byte>)
    requires |s| == 5 && i + 5 <= |code| && code[i..i + 5] == s
    ensures code[i] == s[0] && code[i + 1] == s[1] && code[i + 2] == s[2] && code[i + 3] == s[3] && code[i + 4] == s[4]
  {
    var t := code[i..i + 5];
    assert t[0] == code[i] && t[1] == code[i + 1] && t[2] == code[i + 2] && t[3] == code[i + 3] && t[4] == code[i + 4];
  }

  lemma {:induction false} JumpHeld(p: seq<Instr>, code: seq<byte>, k: nat, o: nat)
    requires Encoded(p, code) && Guard(p, k) && o == Offset(p, k, 2)
    ensures o + 3 <= |code| && o + 3 == Offset(p, k + 1, 2) && code[o] == JMP_IF_FALSE
  {
    EncodedHolds(p, 2, k);
  }

  lemma {:induction false} ConstantHeld(p: seq<Instr>, code: seq<byte>, k: nat, o: nat)
    requires Encoded(p, code) && Guard(p, k) && o == Offset(p, k + 1, 2)
    ensures o + 5 <= |code| && o + 5 == Offset(p, k + 2, 2) && code[o..o + 5] == [CONST_I32, 0, 0, 0, 0]
  {
    hide EncodeUpTo, LeBytes;
    EncodedSlice(p, k + 1, |p|, 2);
    ZeroConstant(Distance(p, k + 1, 2));
  }

  /** The eight bytes of such a pair. */
  lemma {:induction false} GuardBytes(p: seq<Instr>, code: seq<byte>, k: nat, o: nat)
    requires Encoded(p, code) && Guard(p, k) && o == Offset(p, k, 2)
    ensures o + 8 <= |code| && o + 8 == Offset(p, k + 2, 2) && code[o] == JMP_IF_FALSE && code[o + 3] == CONST_I32
    ensures code[o + 4] == 0 && code[o + 5] == 0 && code[o + 6] == 0 && code[o + 7] == 0
  {
    JumpHeld(p, code, k, o);
    ConstantHeld(p, code, k, o + 3);
    FiveHeld(code, o + 3, [CONST_I32, 0, 0, 0, 0]);
  }

  /** Read with four bytes, the operand takes in the opcode of the constant. */
  lemma {:induction false} GuardOperand(p: seq<Instr>, code: seq<byte>, k: nat, o: nat)
    requires Encoded(p, code) && Guard(p, k) && o == Offset(p, k, 2)
    ensures o + 5 <= |code| && Operand(code, o + 1, 4).Some? && Operand(code, o + 1, 4).value >= 0x7_0000
  {
    GuardBytes(p, code, k, o);
    var a, b := code[o + 1], code[o + 2];
    assert code[o + 1..o + 5] == [a, b, CONST_I32, 0];
    Widths.LittleEndian(a, b, CONST_I32, 0);
    FieldWidths();
  }

  lemma {:induction false} PopTop(next: int, env: seq<Value>, b: bool, target: int)
    ensures Branch(next, env + [Bool(b)], IfFalse, target) == Running(if b then next else target, env)
  {
    assert (env + [Bool(b)])[..|env|] == env;
  }

  lemma {:induction false} GuardStep(p: seq<Instr>, code: seq<byte>, locals: nat, k: nat, o: nat, env: seq<Value>, b: bool)
    requires Encoded(p, code) && Guard(p, k) && o == Offset(p, k, 2)
    ensures Operand(code, o + 1, 4).Some?
    ensures Goes(code, locals, Running(o, env + [Bool(b)]), 1,
                 Running(if b then o + 5 else o + 5 + Operand(code, o + 1, 4).value, env))
  {
    GuardBytes(p, code, k, o);
    GuardOperand(p, code, k, o);
    var target := o + 5 + Operand(code, o + 1, 4).value;
    PopTop(o + 5, env, b, target);
    GoesOne(code, locals, Running(o, env + [Bool(b)]), Running(if b then o + 5 else target, env));
  }

  lemma {:induction false} NopStep(code: seq<byte>, locals: nat, ip: nat, env: seq<Value>)
    requires ip < |code| && code[ip] == 0
    ensures Goes(code, locals, Running(ip, env), 1, Running(ip + 1, env))
  {
    GoesOne(code, locals, Running(ip, env), Running(ip + 1, env));
  }

  /** When the test holds, the constant is skipped: its last bytes do nothing. */
  lemma {:induction false} FallsThrough(p: seq<Instr>, code: seq<byte>, locals: nat, k: nat, env: seq<Value>)
    requires Encoded(p, code) && Guard(p, k)
    ensures Goes(code, locals, At(p, k, env + [Bool(true)]), 4, At(p, k + 2, env))
  {
    hide Goes, Offset;
    var o := Offset(p, k, 2);
    var s := Running(o, env + [Bool(true)]);
    GuardBytes(p, code, k, o);
    GuardStep(p, code, locals, k, o, env, true);
    NopStep(code, locals, o + 5, env);
    NopStep(code, locals, o + 6, env);
    NopStep(code, locals, o + 7, env);
    GoesOn(code, locals, s, 1, Running(o + 5, env), 1, Running(o + 6, env));
    GoesOn(code, locals, s, 2, Running(o + 6, env), 1, Running(o + 7, env));
    GoesOn(code, locals, s, 3, Running(o + 7, env), 1, Running(o + 8, env));
  }

  /** When it fails, the jump leaves the code, and the frame returns null. */
  lemma {:induction false} JumpsOut(p: seq<Instr>, code: seq<byte>, locals: nat, k: nat, env: seq<Value>)
    requires Encoded(p, code) && Guard(p, k) && |p| <= 6000 && |env| == locals
    ensures Goes(code, locals, At(p, k, env + [Bool(false)]), 2, Returned(Null, env))
  {
    var o := Offset(p, k, 2);
    GuardOperand(p, code, k, o);
    GuardStep(p, code, locals, k, o, env, false);
    var out := Running(o + 5 + Operand(code, o + 1, 4).value, env);
    assert |code| <= 30000;
    GoesOne(code, locals, out, Returned(Null, env));
    GoesOn(code, locals, Running(o, env + [Bool(false)]), 1, out, 1, Returned(Null, env));
  }

  // The beginning both nested workloads share.

  /** Two locals set to zero, the test of the outer loop, and its body setting another local to zero. */
  predicate Opening(p: seq<Instr>, n: int)
  {
    && |p| >= 10 && p[0] == Const(0) && p[1] == Put(0) && p[2] == Const(0) && p[3] == Put(1)
    && p[4] == Load(1) && p[5] == Const(n) && p[6] == Bin(Lt) && Guard(p, 7) && p[9] == Put(2)
  }

  function Nulls(locals: nat): seq<Value> { seq(locals, _ => Null) }

  /** The locals when the outer test is reached. */
  function Zeroed(locals: nat): seq<Value>
    requires locals >= 2
  {
    Nulls(locals)[0 := I32(0)][1 := I32(0)]
  }

  lemma {:induction false} ZeroesTwo(p: seq<Instr>, code: seq<byte>, locals: nat, n: int)
    requires Encoded(p, code) && Opening(p, n) && locals >= 2
    ensures Goes(code, locals, At(p, 0, Nulls(locals)), 4, At(p, 4, Zeroed(locals)))
  {
    hide Goes;
    var env := Nulls(locals);
    var one := env[0 := I32(0)];
    ZeroAt(p, code, locals, 0, 0, env);
    ZeroAt(p, code, locals, 2, 1, one);
    GoesOn(code, locals, At(p, 0, env), 2, At(p, 2, one), 2, At(p, 4, Zeroed(locals)));
  }

  lemma {:induction false} ReachesOuterTest(p: seq<Instr>, code: seq<byte>, locals: nat, n: int)
    requires Encoded(p, code) && Opening(p, n) && locals >= 2
    ensures Goes(code, locals, Entry(locals), 7, At(p, 7, Zeroed(locals) + [Bool(0 < n)]))
  {
    var start, mid := At(p, 0, Nulls(locals)), At(p, 4, Zeroed(locals));
    assert Goes(code, locals, start, 4, mid) by { ZeroesTwo(p, code, locals, n); }
    var end := At(p, 7, Zeroed(locals) + [Bool(0 < n)]);
    assert Goes(code, locals, mid, 3, end) by { TestAt(p, code, locals, 4, 1, n, Zeroed(locals)); }
    GoesOn(code, locals, start, 4, mid, 3, end);
    assert Entry(locals) == start;
  }

  lemma {:induction false} OuterNotEntered(p: seq<Instr>, code: seq<byte>, locals: nat, n: int)
    requires Encoded(p, code) && Opening(p, n) && locals >= 2 && |p| <= 6000 && n <= 0
    ensures Goes(code, locals, Entry(locals), 9, Returned(Null, Zeroed(locals)))
  {
    ReachesOuterTest(p, code, locals, n);
    JumpsOut(p, code, locals, 7, Zeroed(locals));
    GoesOn(code, locals, Entry(locals), 7, At(p, 7, Zeroed(locals) + [Bool(false)]), 2, Returned(Null, Zeroed(locals)));
  }

  lemma {:induction false} OuterEntered(p: seq<Instr>, code: seq<byte>, locals: nat, n: int)
    requires Encoded(p, code) && Opening(p, n) && locals >= 2 && n > 0
    ensures Goes(code, locals, Entry(locals), 11, At(p, 9, Zeroed(locals)))
  {
    ReachesOuterTest(p, code, locals, n);
    FallsThrough(p, code, locals, 7, Zeroed(locals));
    GoesOn(code, locals, Entry(locals), 7, At(p, 7, Zeroed(locals) + [Bool(true)]), 4, At(p, 9, Zeroed(locals)));
  }

  lemma {:induction false} NoStore(p: seq<Instr>, code: seq<byte>, locals: nat, k: nat, x: nat, env: seq<Value>)
    requires Encoded(p, code) && k < |p| && p[k] == Put(x) && x + 1 >= |env|
    ensures Goes(code, locals, At(p, k, env), 1, Failed)
  {
    PlainStep(p, code, locals, k, env);
  }

  // Reading what the workloads start with off their source.

  lemma {:induction false} LoopOpens(p: seq<Instr>, at: nat, x: nat, n: int, body: Stmt)
    requires CodeAt(p, at, Compile(While(W.Below(x, n), body), at))
    ensures at + 4 <= |p| && p[at] == Load(x) && p[at + 1] == Const(n) && p[at + 2] == Bin(Lt)
    ensures p[at + 3].Goto? && p[at + 3].j == IfFalse
    ensures CodeAt(p, at + 4, Compile(body, at + 4))
  {
    assert CompileExpr(Var(x)) == [Load(x)] && CompileExpr(Lit(n)) == [Const(n)];
    var test := CompileExpr(W.Below(x, n));
    assert test == [Load(x), Const(n), Bin(Lt)];
    var inside := Compile(body, at + 4);
    var exit := Goto(IfFalse, at + 4 + |inside| + 1);
    assert LoopCode(test, inside, at) == [Load(x), Const(n), Bin(Lt), exit] + inside + [Goto(Always, at)];
    SplitCode(p, at, [Load(x), Const(n), Bin(Lt), exit] + inside, [Goto(Always, at)]);
    SplitCode(p, at, [Load(x), Const(n), Bin(Lt), exit], inside);
    FourAt(p, at, Load(x), Const(n), Bin(Lt), exit);
  }

  lemma {:induction false} FourAt(p: seq<Instr>, at: nat, a: Instr, b: Instr, c: Instr, d: Instr)
    requires CodeAt(p, at, [a, b, c, d])
    ensures at + 4 <= |p| && p[at] == a && p[at + 1] == b && p[at + 2] == c && p[at + 3] == d
  {
    var s := p[at..at + 4];
    assert s[0] == p[at] && s[1] == p[at + 1] && s[2] == p[at + 2] && s[3] == p[at + 3];
  }

  lemma {:induction false} ZeroOpens(p: seq<Instr>, at: nat, x: nat)
    requires CodeAt(p, at, Compile(W.Zero(x), at))
    ensures at + 2 <= |p| && p[at] == Const(0) && p[at + 1] == Put(x)
  {
    assert Compile(W.Zero(x), at) == [Const(0), Put(x)];
    var s := p[at..at + 2];
    assert s[0] == p[at] && s[1] == p[at + 1];
  }

  lemma {:induction false} ThenOpens(p: seq<Instr>, at: nat, a: Stmt, b: Stmt)
    requires CodeAt(p, at, Compile(Then(a, b), at))
    ensures CodeAt(p, at, Compile(a, at)) && CodeAt(p, at + Length(a), Compile(b, at + Length(a)))
  {
    SplitCode(p, at, Compile(a, at), Compile(b, at + Length(a)));
  }

  lemma {:induction false} ProgramOpens(q: Program)
    ensures CodeAt(CompileProgram(q), 0, Compile(q.body, 0))
  {
    var p, body, end := CompileProgram(q), Compile(q.body, 0), CompileExpr(q.result) + [Ret];
    assert p == body + end;
    assert p[0..0 + |body|] == body;
  }

  /** Both nested workloads are an outer loop whose body starts by zeroing local 2. */
  lemma {:induction false} NestedOpens(q: Program, n: int, inner: Stmt, last: Stmt)
    requires q.body == Then(Then(W.Zero(0), W.Zero(1)), While(W.Below(1, n), Then(Then(W.Zero(2), inner), last)))
    ensures Opening(CompileProgram(q), n)
    ensures CodeAt(CompileProgram(q), 10, Compile(inner, 10))
  {
    hide CompileProgram, Compile, CodeAt;
    var p := CompileProgram(q);
    var body := Then(Then(W.Zero(2), inner), last);
    ProgramOpens(q);
    ThenOpens(p, 0, Then(W.Zero(0), W.Zero(1)), While(W.Below(1, n), body));
    ThenOpens(p, 0, W.Zero(0), W.Zero(1));
    ZeroLength(0);
    ZeroLength(1);
    ZeroLength(2);
    ZeroOpens(p, 0, 0);
    ZeroOpens(p, 2, 1);
    LoopOpens(p, 4, 1, n, body);
    ThenOpens(p, 8, Then(W.Zero(2), inner), last);
    ThenOpens(p, 8, W.Zero(2), inner);
    ZeroOpens(p, 8, 2);
  }

  lemma {:induction false} ZeroLength(x: nat)
    ensures Length(W.Zero(x)) == 2
  {
    assert |CompileExpr(Lit(0))| == 1;
  }

  // The mixed workload.

  lemma {:induction false} MixedAtFour(outer: int, inner: int, p: seq<Instr>, code: seq<byte>)
    requires IsI32(outer) && IsI32(inner) && p == CompileProgram(W.MixedLoops(outer, inner)) && Encoded(p, code)
    ensures outer <= 0 ==> Goes(code, 3, Entry(3), 9, Returned(Null, Zeroed(3)))
    ensures outer > 0 ==> Goes(code, 3, Entry(3), 12, Failed)
  {
    var q := W.MixedLoops(outer, inner);
    NestedOpens(q, outer, W.InnerLoop(inner), W.Increment(1));
    if outer <= 0 {
      MixedLength(outer, inner);
      OuterNotEntered(p, code, 3, outer);
    } else {
      OuterEntered(p, code, 3, outer);
      NoStore(p, code, 3, 9, 2, Zeroed(3));
      GoesOn(code, 3, Entry(3), 11, At(p, 9, Zeroed(3)), 1, Failed);
    }
  }

  lemma {:induction false} MixedLength(outer: int, inner: int)
    ensures |CompileProgram(W.MixedLoops(outer, inner))| <= 6000
  {
    W.LengthOuter(outer, inner);
    ZeroLength(0);
    ZeroLength(1);
    assert Length(Then(W.Zero(0), W.Zero(1))) == 4;
    assert |CompileExpr(Var(0))| == 1;
  }

  /** A run that stops with something else never yields the value. */
  lemma {:induction false} NeverYields(code: seq<byte>, locals: nat, k: nat, end: State, v: Value)
    requires Goes(code, locals, Entry(locals), k, end) && !end.Running? && (end.Returned? ==> end.value != v)
    ensures !Yields(code, 4, locals, v)
  {
    forall i: nat ensures !ReturnsAt(code, 4, locals, v, i) {
      if ReturnsAt(code, 4, locals, v, i) {
        Widths.OneOutcome(code, 4, locals, Entry(locals), k, i);
        assert false;
      }
    }
  }

  /** The emitted mixed workload returns its sum exactly on the two-byte machine. */
  lemma {:induction false} MixedNeedsTwoBytes(outer: int, inner: int, w: Width, code: seq<byte>, v: Value)
    requires IsI32(outer) && IsI32(inner)
    requires TargetsInside(CompileProgram(W.MixedLoops(outer, inner)))
    requires code == Encode(CompileProgram(W.MixedLoops(outer, inner)), 2)
    requires v == I32(Wrap(Sums.MixedRows(Results.AtLeast0(inner), Results.AtLeast0(outer))))
    ensures Yields(code, w, 3, v) <==> w == 2
  {
    Results.MixedOnBytes(outer, inner, 2);
    if w == 4 {
      MixedAtFour(outer, inner, CompileProgram(W.MixedLoops(outer, inner)), code);
      if outer <= 0 {
        NeverYields(code, 3, 9, Returned(Null, Zeroed(3)), v);
      } else {
        NeverYields(code, 3, 12, Failed, v);
      }
    }
  }

  // The matrix workload.

  /** The body of the outer loop goes on with a loop whose body zeroes local 3. */
  lemma {:induction false} MatrixOpens(n: int, p: seq<Instr>)
    requires p == CompileProgram(W.Matrix(n))
    ensures Opening(p, n) && |p| >= 16 && p[10] == Load(2) && p[11] == Const(n) && p[12] == Bin(Lt)
    ensures Guard(p, 13) && p[15] == Put(3)
  {
    NestedOpens(W.Matrix(n), n, W.LoopJ(n), W.Increment(1));
    LoopOpens(p, 10, 2, n, W.BodyJ(n));
    var zeros := Then(W.Zero(3), W.Zero(4));
    ThenOpens(p, 14, Then(zeros, W.LoopK(n)), Then(W.AddCell(), W.Increment(2)));
    ThenOpens(p, 14, zeros, W.LoopK(n));
    ThenOpens(p, 14, W.Zero(3), W.Zero(4));
    ZeroOpens(p, 14, 3);
  }

  /** The first skewed store takes the last local away and leaves null in local 2. */
  lemma {:induction false} LosesLocal(n: int, p: seq<Instr>, code: seq<byte>, env: seq<Value>, less: seq<Value>)
    requires p == CompileProgram(W.Matrix(n)) && Encoded(p, code) && |env| == 5 && env[4] == Null
    requires less == env[..4][2 := Null]
    ensures |p| >= 16 && Goes(code, 5, At(p, 9, env), 1, At(p, 10, less))
  {
    MatrixOpens(n, p);
    assert env == env[..4] + [Null];
    PlainStep(p, code, 5, 9, env);
    StoreTop(Offset(p, 10, 2), env[..4], 2, Null);
  }

  lemma {:induction false} SecondTest(n: int, p: seq<Instr>, code: seq<byte>, less: seq<Value>)
    requires p == CompileProgram(W.Matrix(n)) && Encoded(p, code) && n > 0 && |less| == 4 && less[2] == Null
    ensures |p| >= 16 && Goes(code, 5, At(p, 10, less), 8, Failed)
  {
    MatrixOpens(n, p);
    var s, t, u := At(p, 10, less), At(p, 13, less + [Bool(true)]), At(p, 15, less);
    assert Goes(code, 5, s, 3, t) by { TestAt(p, code, 5, 10, 2, n, less); }
    assert Goes(code, 5, t, 4, u) by { FallsThrough(p, code, 5, 13, less); }
    assert Goes(code, 5, u, 1, Failed) by { NoStore(p, code, 5, 15, 3, less); }
    GoesOn(code, 5, s, 3, t, 4, u);
    GoesOn(code, 5, s, 7, u, 1, Failed);
  }

  /** Stores in the skewed code pop locals until one finds none to store into. */
  lemma {:induction false} MatrixEntered(n: int, p: seq<Instr>, code: seq<byte>, env: seq<Value>)
    requires p == CompileProgram(W.Matrix(n)) && Encoded(p, code) && n > 0
    requires |env| == 5 && env[4] == Null
    ensures |p| >= 16 && Goes(code, 5, At(p, 9, env), 9, Failed)
  {
    var less := env[..4][2 := Null];
    LosesLocal(n, p, code, env, less);
    SecondTest(n, p, code, less);
    GoesOn(code, 5, At(p, 9, env), 1, At(p, 10, less), 8, Failed);
  }

  lemma {:induction false} MatrixAtFour(n: int, p: seq<Instr>, code: seq<byte>)
    requires IsI32(n) && p == CompileProgram(W.Matrix(n)) && Encoded(p, code)
    ensures n <= 0 ==> Goes(code, 5, Entry(5), 9, Returned(Null, Zeroed(5)))
    ensures n > 0 ==> Goes(code, 5, Entry(5), 20, Failed)
  {
    MatrixOpens(n, p);
    if n <= 0 {
      MatrixLength(n);
      OuterNotEntered(p, code, 5, n);
    } else {
      OuterEntered(p, code, 5, n);
      MatrixEntered(n, p, code, Zeroed(5));
      GoesOn(code, 5, Entry(5), 11, At(p, 9, Zeroed(5)), 9, Failed);
    }
  }

  lemma {:induction false} MatrixLength(n: int)
    ensures |CompileProgram(W.Matrix(n))| <= 6000
  {
    W.LengthI(n);
    ZeroLength(0);
    ZeroLength(1);
    assert Length(Then(W.Zero(0), W.Zero(1))) == 4;
    assert |CompileExpr(Var(0))| == 1;
  }

  /** The emitted matrix kernel returns its sum exactly on the two-byte machine. */
  lemma {:induction false} MatrixNeedsTwoBytes(n: int, w: Width, code: seq<byte>, v: Value)
    requires IsI32(n) && TargetsInside(CompileProgram(W.Matrix(n))) && code == Encode(CompileProgram(W.Matrix(n)), 2)
    requires v == I32(Wrap(Sums.Rows(Results.AtLeast0(n), Results.AtLeast0(n))))
    ensures Yields(code, w, 5, v) <==> w == 2
  {
    Results.MatrixOnBytes(n, 2);
    if w == 4 {
      MatrixAtFour(n, CompileProgram(W.Matrix(n)), code);
      if n <= 0 {
        NeverYields(code, 5, 9, Returned(Null, Zeroed(5)), v);
      } else {
        NeverYields(code, 5, 20, Failed, v);
      }
    }
  }

  // The arithmetic workload has no jumps.

  lemma {:induction false} SameEncoding(p: seq<Instr>, k: nat)
    requires k <= |p| && TargetsInside(p) && forall i :: 0 <= i < |p| ==> !p[i].Goto?
    ensures EncodeUpTo(p, k, 2) == EncodeUpTo(p, k, 4)
  {
    if k > 0 {
      SameEncoding(p, k - 1);
      assert !p[k - 1].Goto?;
    }
  }

  lemma {:induction false} TermsHaveNoJumps(e: Expr)
    ensures forall i :: 0 <= i < |CompileExpr(e)| ==> !CompileExpr(e)[i].Goto?
  {
    if e.Binop? {
      TermsHaveNoJumps(e.l);
      TermsHaveNoJumps(e.r);
    }
  }

  /** Its bytes are the same for both widths and return their sum under either. */
  lemma {:induction false} ArithmeticAtEither(repeat: nat, w: Width)
    ensures TargetsInside(CompileProgram(W.Arithmetic(repeat)))
    ensures Yields(Encode(CompileProgram(W.Arithmetic(repeat)), 2), w, 0, I32(Wrap(if repeat <= 1 then 9 else 9 * repeat)))
  {
    var q := W.Arithmetic(repeat);
    var p := CompileProgram(q);
    Results.ArithmeticOnBytes(repeat, w);
    TermsHaveNoJumps(q.result);
    assert p == CompileExpr(q.result) + [Ret];
    SameEncoding(p, |p|);
  }
}
