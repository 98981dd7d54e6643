/** The benchmark's programs: how they are built, and what they compute. */
module Workloads {
  import opened Bytes
  import opened Options
  import opened Sequences
  import opened Machine
  import opened Assembler
  import opened Loops
  import opened Emitter

  // Source programs, as the comments of the builders describe them.

  function Zero(x: nat): Stmt { Assign(x, Lit(0)) }

  function Increment(x: nat): Stmt { Assign(x, Plus(Var(x), Lit(1))) }

  function Plus(a: Expr, b: Expr): Expr { Binop(Add, a, b) }

  function Times(a: Expr, b: Expr): Expr { Binop(Mul, a, b) }

  function Below(x: nat, n: int): Expr { Binop(Lt, Var(x), Lit(n)) }

  function BranchLoop(n: int): Program
  {
    Program(Then(Zero(0), While(Below(0, n), Increment(0))), Var(0))
  }

  function Successor(x: nat): Expr { Plus(Var(x), Lit(1)) }

  /** cell_acc += ((i+1)*(k+1)) * ((k+1)*(j+1)) */
  function Accumulate(): Stmt
  {
    Assign(4, Plus(Times(Times(Successor(1), Successor(3)), Times(Successor(3), Successor(2))), Var(4)))
  }

  function LoopK(n: int): Stmt { While(Below(3, n), Then(Accumulate(), Increment(3))) }

  function BodyJ(n: int): Stmt
  {
    Then(Then(Then(Zero(3), Zero(4)), LoopK(n)), Then(AddCell(), Increment(2)))
  }

  function LoopJ(n: int): Stmt { While(Below(2, n), BodyJ(n)) }

  function BodyI(n: int): Stmt { Then(Then(Zero(2), LoopJ(n)), Increment(1)) }

  function LoopI(n: int): Stmt { While(Below(1, n), BodyI(n)) }

  function Matrix(n: int): Program { Program(Then(Then(Zero(0), Zero(1)), LoopI(n)), Var(0)) }

  /** sum += (i * 3 + j * 2) % 97 */
  function AddRemainder(): Stmt
  {
    Assign(0, Plus(Binop(Mod, Plus(Times(Var(1), Lit(3)), Times(Var(2), Lit(2))), Lit(97)), Var(0)))
  }

  /** if ((j % 2) == 0) sum -= 5 */
  function Adjust(): Stmt { When(JIsEven(), MinusFive()) }

  function MinusFive(): Stmt { Assign(0, Binop(Sub, Var(0), Lit(5))) }

  function JIsEven(): Expr { Binop(Eq, Binop(Mod, Var(2), Lit(2)), Lit(0)) }

  function InnerBody(): Stmt { Then(Then(AddRemainder(), Adjust()), Increment(2)) }

  function InnerLoop(inner: int): Stmt { While(Below(2, inner), InnerBody()) }

  function OuterBody(inner: int): Stmt { Then(Then(Zero(2), InnerLoop(inner)), Increment(1)) }

  function OuterLoop(outer: int, inner: int): Stmt { While(Below(1, outer), OuterBody(inner)) }

  function MixedLoops(outer: int, inner: int): Program
  {
    Program(Then(Then(Zero(0), Zero(1)), OuterLoop(outer, inner)), Var(0))
  }

  // The builders.

  method EmitZero(b: CodeBuffer, x: nat)
    requires b.Valid() && x < 0x1_0000
    modifies b
    ensures b.Valid() && b.prog == old(b.prog) + Compile(Zero(x), |old(b.prog)|)
  {
    b.EmitI32(0);
    b.EmitStoreLocal(x);
  }

  lemma {:induction false} IncrementCode(x: nat, base: nat)
    ensures Compile(Increment(x), base) == [Load(x), Const(1), Bin(Add), Put(x)]
  {
    assert CompileExpr(Var(x)) == [Load(x)];
    assert CompileExpr(Lit(1)) == [Const(1)];
  }

  method EmitIncrement(b: CodeBuffer, x: nat)
    requires b.Valid() && x < 0x1_0000
    modifies b
    ensures b.Valid() && b.prog == old(b.prog) + Compile(Increment(x), |old(b.prog)|)
  {
    b.EmitLoadLocal(x);
    b.EmitI32(1);
    b.Emit(Add);
    b.EmitStoreLocal(x);
    IncrementCode(x, |old(b.prog)|);
  }

  /** The head of a counting loop: test the counter and leave the exit jump open. */
  method EmitGuard(b: CodeBuffer, x: nat, n: int) returns (exit: nat)
    requires b.Valid() && x < 0x1_0000 && IsI32(n)
    modifies b
    ensures b.Valid()
    ensures |CompileExpr(Below(x, n))| == 3
    ensures b.prog == old(b.prog) + (CompileExpr(Below(x, n)) + [Goto(IfFalse, |old(b.prog)| + 4)])
    ensures exit == Offset(b.prog, |b.prog| - 1, W) + 1
  {
    b.EmitLoadLocal(x);
    b.EmitI32(n);
    b.Emit(Lt);
    exit := b.EmitJmpPlaceholder(IfFalse);
    OffsetOfPrefix(b.prog[..|b.prog| - 1], b.prog, |b.prog| - 1, W);
  }

  lemma {:induction false} NearDistance(p: seq<Instr>, a: nat, c: nat)
    requires a <= |p| && c <= |p| && |p| <= 6000
    ensures FitsSigned(Offset(p, a, W) - Offset(p, c, W), 2)
  {
    FieldWidths();
  }

  lemma {:induction false} ExitReady(p0: seq<Instr>, p1: seq<Instr>, at: nat, exit: nat)
    requires at < |p0| && p0[at].Goto? && |p1| == |p0| + 1 <= 6000 && p1[..|p0|] == p0
    requires exit == Offset(p0, at, W) + 1
    ensures exit == Offset(p1, at, W) + 1
    ensures FitsSigned(Offset(p1, |p1|, W) - (exit + 2), 2)
  {
    assert p1[at] == p1[..|p0|][at];
    OffsetOfPrefix(p0, p1, at, W);
    NearDistance(p1, |p1|, at + 1);
  }

  lemma {:induction false} BackReady(p0: seq<Instr>, p2: seq<Instr>, start: nat)
    requires start <= |p0| && |p2| == |p0| + 1 <= 6000 && p2[|p0|].Goto?
    requires forall i :: 0 <= i < |p0| ==> Size(p0[i], W) == Size(p2[i], W)
    ensures Offset(p2, start, W) == Offset(p0, start, W)
    ensures Offset(p2, |p0|, W) == Offset(p0, |p0|, W)
    ensures FitsSigned(Offset(p2, start, W) - (Offset(p2, |p0|, W) + 3), 2)
  {
    OffsetOfPrefix(p0, p2, start, W);
    OffsetOfPrefix(p0, p2, |p0|, W);
    NearDistance(p2, start, |p2|);
  }

  lemma {:induction false} FilledIn<T>(pre: seq<T>, ce: seq<T>, body: seq<T>, g: T, h: T, g': T, h': T)
    ensures (pre + (ce + [g] + body) + [h])[|pre| + |ce| := g'][|pre| + |ce| + 1 + |body| := h']
            == pre + (ce + [g'] + body + [h'])
  {
  }

  /**
   The tail of a loop: jump back to the head, then fill in both jumps.  The ghost
   arguments are the code before the loop, of its condition and of its body, and
   the place that the open exit jump goes to.
   */
  lemma {:induction false} LoopFilled(pre: seq<Instr>, ce: seq<Instr>, body: seq<Instr>, open: nat,
                                      p0: seq<Instr>, p1: seq<Instr>, p: seq<Instr>)
    requires p0 == pre + (ce + [Goto(IfFalse, open)] + body) && p1 == p0 + [Goto(Always, |p0| + 1)]
    requires p == p1[|pre| + |ce| := Goto(IfFalse, |p1|)][|p0| := Goto(Always, |pre|)]
    ensures p == pre + LoopCode(ce, body, |pre|)
  {
    FilledIn(pre, ce, body, Goto(IfFalse, open), Goto(Always, |p1|), Goto(IfFalse, |p1|), Goto(Always, |pre|));
  }

  method CloseLoop(b: CodeBuffer, exit: nat, head: nat,
                   ghost pre: seq<Instr>, ghost ce: seq<Instr>, ghost body: seq<Instr>, ghost open: nat)
    requires b.Valid() && |b.prog| < 6000
    requires b.prog == pre + (ce + [Goto(IfFalse, open)] + body)
    requires head == Offset(b.prog, |pre|, W)
    requires exit == Offset(b.prog, |pre| + |ce|, W) + 1
    modifies b
    ensures b.Valid()
    ensures b.prog == pre + LoopCode(ce, body, |pre|)
  {
    hide Offset, LoopCode, Encode, TargetsInside;
    ghost var at, p0 := |pre| + |ce|, b.prog;
    var back := b.EmitJmpPlaceholder(Always);
    var end := |b.code|;
    ghost var p1 := b.prog;
    ExitReady(p0, p1, at, exit);
    b.PatchJump(exit, end, at, |p1|);
    BackReady(p0, b.prog, |pre|);
    b.PatchJump(back, head, |p0|, |pre|);
    LoopFilled(pre, ce, body, open, p0, p1, b.prog);
  }

  /** Code appended after the head of a loop does not move the head. */
  lemma {:induction false} HeadStays(pre: seq<Instr>, front: seq<Instr>, p: seq<Instr>)
    requires pre <= front <= p && front != []
    ensures Offset(p, |pre|, W) == Offset(pre, |pre|, W)
    ensures Offset(p, |front| - 1, W) == Offset(front, |front| - 1, W)
  {
    OffsetOfPrefix(pre, p, |pre|, W);
    OffsetOfPrefix(front, p, |front| - 1, W);
  }

  /** The end of an `if`: fill in the jump that skips its body. */
  method CloseWhen(b: CodeBuffer, skip: nat,
                   ghost pre: seq<Instr>, ghost test: seq<Instr>, ghost body: seq<Instr>, ghost open: nat)
    requires b.Valid() && |b.prog| < 6000
    requires b.prog == pre + (test + [Goto(IfFalse, open)] + body)
    requires skip == Offset(b.prog, |pre| + |test|, W) + 1
    modifies b
    ensures b.Valid() && b.prog == pre + WhenCode(test, body, |pre|)
  {
    ghost var at := |pre| + |test|;
    var end := |b.code|;
    NearDistance(b.prog, |b.prog|, at + 1);
    assert Offset(b.prog, at + 1, W) == skip + 2;
    b.PatchJump(skip, end, at, |b.prog|);
  }

  /** Consecutive pieces of code make up a sequence of statements. */
  lemma {:induction false} Joined(p: seq<Instr>, first: Stmt, second: Stmt, q: seq<Instr>, r: seq<Instr>)
    requires q == p + Compile(first, |p|) && r == q + Compile(second, |q|)
    ensures r == p + Compile(Then(first, second), |p|)
  {
    Regroup(p, Compile(first, |p|), Compile(second, |q|));
  }

  /** Close a counting loop whose head was emitted after pre. */
  method FinishLoop(b: CodeBuffer, exit: nat, head: nat,
                    ghost pre: seq<Instr>, ghost front: seq<Instr>, ghost x: nat, ghost n: int, ghost body: Stmt)
    requires b.Valid() && |b.prog| < 6000 && |CompileExpr(Below(x, n))| == 3
    requires front == pre + (CompileExpr(Below(x, n)) + [Goto(IfFalse, |pre| + 4)])
    requires b.prog == front + Compile(body, |front|)
    requires head == Offset(pre, |pre|, W) && exit == Offset(front, |front| - 1, W) + 1
    modifies b
    ensures b.Valid() && b.prog == pre + Compile(While(Below(x, n), body), |pre|)
  {
    ghost var test, code := CompileExpr(Below(x, n)), Compile(body, |front|);
    assert Compile(While(Below(x, n), body), |pre|) == LoopCode(test, code, |pre|);
    hide Offset, CompileExpr, Compile, LoopCode, Encode, TargetsInside;
    HeadStays(pre, front, b.prog);
    Regroup(pre, test + [Goto(IfFalse, |front|)], code);
    CloseLoop(b, exit, head, pre, test, code, |front|);
  }

  lemma {:induction false} LengthBelow(x: nat, n: int)
    ensures |CompileExpr(Below(x, n))| == 3
  {
    assert CompileExpr(Var(x)) == [Load(x)] && CompileExpr(Lit(n)) == [Const(n)];
  }

  // Single loop.

  method EmitCounter(b: CodeBuffer, n: int)
    requires b.Valid() && IsI32(n) && |b.prog| < 1000
    modifies b
    ensures b.Valid()
    ensures b.prog == old(b.prog) + Compile(While(Below(0, n), Increment(0)), |old(b.prog)|)
  {
    hide Offset;
    ghost var pre := b.prog;
    var head := |b.code|;
    var exit := EmitGuard(b, 0, n);
    ghost var front := b.prog;
    EmitIncrement(b, 0);
    IncrementCode(0, |front|);
    FinishLoop(b, exit, head, pre, front, 0, n, Increment(0));
  }

  method BuildBranchLoop(n: int) returns (code: seq<byte>)
    requires IsI32(n)
    ensures TargetsInside(CompileProgram(BranchLoop(n)))
    ensures code == Encode(CompileProgram(BranchLoop(n)), W)
  {
    var b := new CodeBuffer();
    EmitZero(b, 0);
    ghost var p := b.prog;
    EmitCounter(b, n);
    Joined([], Zero(0), While(Below(0, n), Increment(0)), p, b.prog);
    EmitResult(b, BranchLoop(n));
    code := b.code;
  }

  /** Return local 0. */
  method EmitResult(b: CodeBuffer, ghost q: Program)
    requires b.Valid() && b.prog == Compile(q.body, 0) && q.result == Var(0)
    modifies b
    ensures b.Valid() && b.prog == CompileProgram(q)
  {
    b.EmitLoadLocal(0);
    b.EmitReturn();
    assert CompileExpr(Var(0)) == [Load(0)];
  }

  // Matrix kernel.

  lemma {:induction false} SuccessorCode(x: nat)
    ensures CompileExpr(Successor(x)) == [Load(x), Const(1), Bin(Add)]
  {
    assert CompileExpr(Var(x)) == [Load(x)];
    assert CompileExpr(Lit(1)) == [Const(1)];
  }

  lemma {:induction false} ProductCode(x: nat, y: nat)
    ensures CompileExpr(Times(Successor(x), Successor(y)))
            == [Load(x), Const(1), Bin(Add), Load(y), Const(1), Bin(Add), Bin(Mul)]
  {
    SuccessorCode(x);
    SuccessorCode(y);
  }

  method EmitSuccessor(b: CodeBuffer, x: nat)
    requires b.Valid() && x < 0x1_0000
    modifies b
    ensures b.Valid() && b.prog == old(b.prog) + CompileExpr(Successor(x))
  {
    b.EmitLoadLocal(x);
    b.EmitI32(1);
    b.Emit(Add);
    SuccessorCode(x);
  }

  method EmitProduct(b: CodeBuffer, x: nat, y: nat)
    requires b.Valid() && x < 0x1_0000 && y < 0x1_0000
    modifies b
    ensures b.Valid() && b.prog == old(b.prog) + CompileExpr(Times(Successor(x), Successor(y)))
  {
    EmitSuccessor(b, x);
    EmitSuccessor(b, y);
    b.Emit(Mul);
    ProductCode(x, y);
    SuccessorCode(x);
    SuccessorCode(y);
  }

  method EmitAddProduct(b: CodeBuffer)
    requires b.Valid()
    modifies b
    ensures b.Valid() && b.prog == old(b.prog) + [Bin(Mul), Load(4), Bin(Add), Put(4)]
  {
    b.Emit(Mul);
    b.EmitLoadLocal(4);
    b.Emit(Add);
    b.EmitStoreLocal(4);
  }

  method EmitAccumulate(b: CodeBuffer)
    requires b.Valid()
    modifies b
    ensures b.Valid() && b.prog == old(b.prog) + Compile(Accumulate(), |old(b.prog)|)
  {
    EmitProduct(b, 1, 3);
    EmitProduct(b, 3, 2);
    EmitAddProduct(b);
    AccumulateCode(|old(b.prog)|);
    RegroupThree(old(b.prog), CompileExpr(Times(Successor(1), Successor(3))),
              CompileExpr(Times(Successor(3), Successor(2))), [Bin(Mul), Load(4), Bin(Add), Put(4)]);
  }

  lemma {:induction false} AccumulateCode(base: nat)
    ensures Compile(Accumulate(), base)
            == CompileExpr(Times(Successor(1), Successor(3))) + CompileExpr(Times(Successor(3), Successor(2)))
               + [Bin(Mul), Load(4), Bin(Add), Put(4)]
  {
    var l, r := Times(Successor(1), Successor(3)), Times(Successor(3), Successor(2));
    assert CompileExpr(Times(l, r)) == CompileExpr(l) + CompileExpr(r) + [Bin(Mul)];
    assert CompileExpr(Var(4)) == [Load(4)];
  }

  method EmitLoopK(b: CodeBuffer, n: int)
    requires b.Valid() && IsI32(n) && |b.prog| < 1000
    modifies b
    ensures b.Valid() && b.prog == old(b.prog) + Compile(LoopK(n), |old(b.prog)|)
  {
    hide Compile, Offset;
    ghost var pre := b.prog;
    var head := |b.code|;
    var exit := EmitGuard(b, 3, n);
    ghost var front := b.prog;
    EmitAccumulate(b);
    ghost var p := b.prog;
    EmitIncrement(b, 3);
    Joined(front, Accumulate(), Increment(3), p, b.prog);
    LengthK(n);
    FinishLoop(b, exit, head, pre, front, 3, n, Then(Accumulate(), Increment(3)));
  }

  lemma {:induction false} LengthK(n: int)
    ensures Length(LoopK(n)) == 27 && Length(Then(Accumulate(), Increment(3))) == 22
  {
    AccumulateCode(0);
    ProductCode(1, 3);
    ProductCode(3, 2);
    IncrementCode(3, 0);
    LengthBelow(3, n);
    assert Length(Accumulate()) == |Compile(Accumulate(), 0)|;
    assert Length(Increment(3)) == |Compile(Increment(3), 0)|;
  }

  /** total += cell_acc */
  function AddCell(): Stmt { Assign(0, Plus(Var(0), Var(4))) }

  method EmitAddCell(b: CodeBuffer)
    requires b.Valid()
    modifies b
    ensures b.Valid() && b.prog == old(b.prog) + Compile(AddCell(), |old(b.prog)|)
  {
    b.EmitLoadLocal(0);
    b.EmitLoadLocal(4);
    b.Emit(Add);
    b.EmitStoreLocal(0);
    assert CompileExpr(Var(0)) == [Load(0)] && CompileExpr(Var(4)) == [Load(4)];
  }

  method EmitLoopJ(b: CodeBuffer, n: int)
    requires b.Valid() && IsI32(n) && |b.prog| < 900
    modifies b
    ensures b.Valid() && b.prog == old(b.prog) + Compile(LoopJ(n), |old(b.prog)|)
  {
    hide Compile, Offset;
    ghost var pre := b.prog;
    var head := |b.code|;
    var exit := EmitGuard(b, 2, n);
    ghost var front := b.prog;
    EmitBodyJ(b, n);
    LengthJ(n);
    FinishLoop(b, exit, head, pre, front, 2, n, BodyJ(n));
  }

  method EmitBodyJ(b: CodeBuffer, n: int)
    requires b.Valid() && IsI32(n) && |b.prog| < 910
    modifies b
    ensures b.Valid() && b.prog == old(b.prog) + Compile(BodyJ(n), |old(b.prog)|)
  {
    ghost var p0 := b.prog;
    EmitZero(b, 3);
    ghost var p1 := b.prog;
    EmitZero(b, 4);
    ghost var p2 := b.prog;
    Joined(p0, Zero(3), Zero(4), p1, p2);
    EmitLoopK(b, n);
    ghost var p3 := b.prog;
    Joined(p0, Then(Zero(3), Zero(4)), LoopK(n), p2, p3);
    EmitAddCell(b);
    ghost var p4 := b.prog;
    EmitIncrement(b, 2);
    Joined(p3, AddCell(), Increment(2), p4, b.prog);
    Joined(p0, Then(Then(Zero(3), Zero(4)), LoopK(n)), Then(AddCell(), Increment(2)), p3, b.prog);
  }

  lemma {:induction false} LengthJ(n: int)
    ensures Length(BodyJ(n)) == 39 && Length(LoopJ(n)) == 44
  {
    LengthK(n);
    IncrementCode(2, 0);
    LengthBelow(2, n);
    assert CompileExpr(Var(0)) == [Load(0)] && CompileExpr(Var(4)) == [Load(4)];
    assert Length(Then(AddCell(), Increment(2))) == 8;
    assert Length(Then(Zero(3), Zero(4))) == 4;
  }

  method EmitLoopI(b: CodeBuffer, n: int)
    requires b.Valid() && IsI32(n) && |b.prog| < 800
    modifies b
    ensures b.Valid() && b.prog == old(b.prog) + Compile(LoopI(n), |old(b.prog)|)
  {
    hide Compile, Offset;
    ghost var pre := b.prog;
    var head := |b.code|;
    var exit := EmitGuard(b, 1, n);
    ghost var front := b.prog;
    EmitZero(b, 2);
    ghost var p := b.prog;
    EmitLoopJ(b, n);
    ghost var q := b.prog;
    Joined(front, Zero(2), LoopJ(n), p, q);
    EmitIncrement(b, 1);
    Joined(front, Then(Zero(2), LoopJ(n)), Increment(1), q, b.prog);
    LengthI(n);
    FinishLoop(b, exit, head, pre, front, 1, n, BodyI(n));
  }

  lemma {:induction false} LengthI(n: int)
    ensures Length(BodyI(n)) == 50 && Length(LoopI(n)) == 55
  {
    LengthJ(n);
    LengthBelow(1, n);
    IncrementCode(1, 0);
    assert Length(Then(Zero(2), LoopJ(n))) == 46;
  }

  method BuildMatrix(n: int) returns (code: seq<byte>)
    requires IsI32(n)
    ensures TargetsInside(CompileProgram(Matrix(n)))
    ensures code == Encode(CompileProgram(Matrix(n)), W)
  {
    var b := new CodeBuffer();
    EmitZero(b, 0);
    ghost var p := b.prog;
    EmitZero(b, 1);
    ghost var q := b.prog;
    Joined([], Zero(0), Zero(1), p, q);
    EmitLoopI(b, n);
    Joined([], Then(Zero(0), Zero(1)), LoopI(n), q, b.prog);
    EmitResult(b, Matrix(n));
    code := b.code;
  }

  // Nested loops with remainder and branch.

  method EmitAddRemainder(b: CodeBuffer)
    requires b.Valid()
    modifies b
    ensures b.Valid() && b.prog == old(b.prog) + Compile(AddRemainder(), |old(b.prog)|)
  {
    EmitScaled(b, 1, 3);
    EmitScaled(b, 2, 2);
    EmitReduce(b);
    AddRemainderCode(|old(b.prog)|);
    RegroupThree(old(b.prog), [Load(1), Const(3), Bin(Mul)], [Load(2), Const(2), Bin(Mul)],
              [Bin(Add), Const(97), Bin(Mod), Load(0), Bin(Add), Put(0)]);
  }

  method EmitReduce(b: CodeBuffer)
    requires b.Valid()
    modifies b
    ensures b.Valid()
    ensures b.prog == old(b.prog) + [Bin(Add), Const(97), Bin(Mod), Load(0), Bin(Add), Put(0)]
  {
    hide Encode, TargetsInside;
    b.Emit(Add);
    b.EmitI32(97);
    b.Emit(Mod);
    b.EmitLoadLocal(0);
    b.Emit(Add);
    b.EmitStoreLocal(0);
  }

  method EmitScaled(b: CodeBuffer, x: nat, n: int)
    requires b.Valid() && x < 0x1_0000 && IsI32(n)
    modifies b
    ensures b.Valid() && b.prog == old(b.prog) + [Load(x), Const(n), Bin(Mul)]
  {
    b.EmitLoadLocal(x);
    b.EmitI32(n);
    b.Emit(Mul);
  }

  lemma {:induction false} AddRemainderCode(base: nat)
    ensures Compile(AddRemainder(), base)
            == [Load(1), Const(3), Bin(Mul)] + [Load(2), Const(2), Bin(Mul)]
               + [Bin(Add), Const(97), Bin(Mod), Load(0), Bin(Add), Put(0)]
  {
    assert CompileExpr(Var(1)) == [Load(1)] && CompileExpr(Lit(3)) == [Const(3)];
    assert CompileExpr(Var(2)) == [Load(2)] && CompileExpr(Lit(2)) == [Const(2)];
    assert CompileExpr(Times(Var(1), Lit(3))) == [Load(1), Const(3), Bin(Mul)];
    assert CompileExpr(Times(Var(2), Lit(2))) == [Load(2), Const(2), Bin(Mul)];
    var sum := Plus(Times(Var(1), Lit(3)), Times(Var(2), Lit(2)));
    assert CompileExpr(sum) == [Load(1), Const(3), Bin(Mul)] + [Load(2), Const(2), Bin(Mul)] + [Bin(Add)];
    assert CompileExpr(Lit(97)) == [Const(97)] && CompileExpr(Var(0)) == [Load(0)];
    assert CompileExpr(Binop(Mod, sum, Lit(97))) == CompileExpr(sum) + [Const(97)] + [Bin(Mod)];
  }

  method EmitJIsEven(b: CodeBuffer)
    requires b.Valid()
    modifies b
    ensures b.Valid() && b.prog == old(b.prog) + CompileExpr(JIsEven()) && |CompileExpr(JIsEven())| == 5
  {
    hide CompileExpr, Encode, TargetsInside;
    b.EmitLoadLocal(2);
    b.EmitI32(2);
    b.Emit(Mod);
    b.EmitI32(0);
    b.Emit(Eq);
    AdjustCode(0);
  }

  method EmitMinusFive(b: CodeBuffer)
    requires b.Valid()
    modifies b
    ensures b.Valid() && b.prog == old(b.prog) + Compile(MinusFive(), |old(b.prog)|)
    ensures Length(MinusFive()) == 4
  {
    hide Compile, Encode, TargetsInside;
    b.EmitLoadLocal(0);
    b.EmitI32(5);
    b.Emit(Sub);
    b.EmitStoreLocal(0);
    AdjustCode(|old(b.prog)|);
  }

  method EmitAdjust(b: CodeBuffer)
    requires b.Valid() && |b.prog| < 1000
    modifies b
    ensures b.Valid() && b.prog == old(b.prog) + Compile(Adjust(), |old(b.prog)|)
  {
    ghost var pre := b.prog;
    EmitJIsEven(b);
    ghost var tested := b.prog;
    var skip := b.EmitJmpPlaceholder(IfFalse);
    ghost var front := b.prog;
    EmitMinusFive(b);
    SkipStays(tested, front, b.prog);
    SkipForm(pre, CompileExpr(JIsEven()), Goto(IfFalse, |front|), Compile(MinusFive(), |front|));
    CloseWhen(b, skip, pre, CompileExpr(JIsEven()), Compile(MinusFive(), |front|), |front|);
  }

  lemma {:induction false} SkipStays(tested: seq<Instr>, front: seq<Instr>, p: seq<Instr>)
    requires tested <= front <= p
    ensures Offset(p, |tested|, W) == Offset(tested, |tested|, W)
  {
    OffsetOfPrefix(tested, p, |tested|, W);
  }

  lemma {:induction false} SkipForm<T>(pre: seq<T>, test: seq<T>, g: T, body: seq<T>)
    ensures pre + test + [g] + body == pre + (test + [g] + body)
  {
  }

  lemma {:induction false} AdjustCode(base: nat)
    ensures CompileExpr(JIsEven()) == [Load(2), Const(2), Bin(Mod), Const(0), Bin(Eq)]
    ensures Compile(MinusFive(), base) == [Load(0), Const(5), Bin(Sub), Put(0)]
    ensures Length(Adjust()) == 10
  {
    assert CompileExpr(Var(2)) == [Load(2)] && CompileExpr(Lit(2)) == [Const(2)];
    assert CompileExpr(Binop(Mod, Var(2), Lit(2))) == [Load(2), Const(2), Bin(Mod)];
    assert CompileExpr(Lit(0)) == [Const(0)];
    assert CompileExpr(Var(0)) == [Load(0)] && CompileExpr(Lit(5)) == [Const(5)];
  }

  method EmitInnerLoop(b: CodeBuffer, inner: int)
    requires b.Valid() && IsI32(inner) && |b.prog| < 900
    modifies b
    ensures b.Valid() && b.prog == old(b.prog) + Compile(InnerLoop(inner), |old(b.prog)|)
  {
    hide Compile, Offset;
    ghost var pre := b.prog;
    var head := |b.code|;
    var exit := EmitGuard(b, 2, inner);
    ghost var front := b.prog;
    LengthInner(inner);
    EmitAddRemainder(b);
    ghost var p := b.prog;
    EmitAdjust(b);
    ghost var q := b.prog;
    Joined(front, AddRemainder(), Adjust(), p, q);
    EmitIncrement(b, 2);
    Joined(front, Then(AddRemainder(), Adjust()), Increment(2), q, b.prog);
    FinishLoop(b, exit, head, pre, front, 2, inner, InnerBody());
  }

  lemma {:induction false} LengthInner(inner: int)
    ensures Length(AddRemainder()) == 12 && Length(InnerBody()) == 26 && Length(InnerLoop(inner)) == 31
  {
    AddRemainderCode(0);
    AdjustCode(0);
    IncrementCode(2, 0);
    LengthBelow(2, inner);
    assert Length(AddRemainder()) == |Compile(AddRemainder(), 0)|;
    assert Length(Increment(2)) == |Compile(Increment(2), 0)|;
    assert Length(Then(AddRemainder(), Adjust())) == 22;
  }

  method EmitOuterLoop(b: CodeBuffer, outer: int, inner: int)
    requires b.Valid() && IsI32(outer) && IsI32(inner) && |b.prog| < 800
    modifies b
    ensures b.Valid() && b.prog == old(b.prog) + Compile(OuterLoop(outer, inner), |old(b.prog)|)
  {
    hide Compile, Offset;
    ghost var pre := b.prog;
    var head := |b.code|;
    var exit := EmitGuard(b, 1, outer);
    ghost var front := b.prog;
    EmitZero(b, 2);
    ghost var p := b.prog;
    EmitInnerLoop(b, inner);
    ghost var q := b.prog;
    Joined(front, Zero(2), InnerLoop(inner), p, q);
    EmitIncrement(b, 1);
    Joined(front, Then(Zero(2), InnerLoop(inner)), Increment(1), q, b.prog);
    LengthOuter(outer, inner);
    FinishLoop(b, exit, head, pre, front, 1, outer, OuterBody(inner));
  }

  lemma {:induction false} LengthOuter(outer: int, inner: int)
    ensures Length(OuterBody(inner)) == 37 && Length(OuterLoop(outer, inner)) == 42
  {
    LengthInner(inner);
    LengthBelow(1, outer);
    IncrementCode(1, 0);
    assert Length(Then(Zero(2), InnerLoop(inner))) == 33;
  }

  method BuildMixed(outer: int, inner: int) returns (code: seq<byte>)
    requires IsI32(outer) && IsI32(inner)
    ensures TargetsInside(CompileProgram(MixedLoops(outer, inner)))
    ensures code == Encode(CompileProgram(MixedLoops(outer, inner)), W)
  {
    var b := new CodeBuffer();
    EmitZero(b, 0);
    ghost var p := b.prog;
    EmitZero(b, 1);
    ghost var q := b.prog;
    Joined([], Zero(0), Zero(1), p, q);
    EmitOuterLoop(b, outer, inner);
    Joined([], Then(Zero(0), Zero(1)), OuterLoop(outer, inner), q, b.prog);
    EmitResult(b, MixedLoops(outer, inner));
    code := b.code;
  }

  // Straight-line arithmetic.

  /** (1 + 2) * 3 */
  function Term(): Expr { Times(Plus(Lit(1), Lit(2)), Lit(3)) }

  function Terms(repeat: nat): Expr
  {
    if repeat <= 1 then Term() else Plus(Terms(repeat - 1), Term())
  }

  function Arithmetic(repeat: nat): Program { Program(Skip, Terms(repeat)) }

  method EmitTerm(b: CodeBuffer)
    requires b.Valid()
    modifies b
    ensures b.Valid() && b.prog == old(b.prog) + CompileExpr(Term())
  {
    EmitSum(b);
    b.EmitI32(3);
    b.Emit(Mul);
    TermCode();
    ghost var sum := CompileExpr(Plus(Lit(1), Lit(2)));
    RegroupThree(old(b.prog), sum, [Const(3)], [Bin(Mul)]);
  }

  method EmitSum(b: CodeBuffer)
    requires b.Valid()
    modifies b
    ensures b.Valid() && b.prog == old(b.prog) + CompileExpr(Plus(Lit(1), Lit(2)))
  {
    b.EmitI32(1);
    b.EmitI32(2);
    b.Emit(Add);
    SumCode();
    RegroupThree(old(b.prog), [Const(1)], [Const(2)], [Bin(Add)]);
  }

  lemma {:induction false} SumCode()
    ensures CompileExpr(Plus(Lit(1), Lit(2))) == [Const(1)] + [Const(2)] + [Bin(Add)]
  {
    assert CompileExpr(Lit(1)) == [Const(1)] && CompileExpr(Lit(2)) == [Const(2)];
  }

  lemma {:induction false} TermCode()
    ensures CompileExpr(Term()) == CompileExpr(Plus(Lit(1), Lit(2))) + [Const(3)] + [Bin(Mul)]
  {
    assert CompileExpr(Lit(3)) == [Const(3)];
  }

  lemma {:induction false} TermsCode(i: nat)
    requires i >= 1
    ensures CompileExpr(Terms(i + 1)) == CompileExpr(Terms(i)) + CompileExpr(Term()) + [Bin(Add)]
  {
  }

  method EmitTerms(b: CodeBuffer, repeat: nat)
    requires b.Valid() && b.prog == []
    modifies b
    ensures b.Valid() && b.prog == CompileExpr(Terms(repeat))
  {
    EmitTerm(b);
    var i := 1;
    while i < repeat
      invariant i == 1 || i <= repeat
      invariant b.Valid() && b.prog == CompileExpr(Terms(i))
    {
      TermsCode(i);
      EmitTerm(b);
      b.Emit(Add);
      i := i + 1;
      assert b.prog == CompileExpr(Terms(i));
    }
  }

  method BuildArithmetic(repeat: nat) returns (code: seq<byte>)
    ensures TargetsInside(CompileProgram(Arithmetic(repeat)))
    ensures code == Encode(CompileProgram(Arithmetic(repeat)), W)
  {
    var b := new CodeBuffer();
    EmitTerms(b, repeat);
    b.EmitReturn();
    assert Compile(Skip, 0) + CompileExpr(Terms(repeat)) == CompileExpr(Terms(repeat));
    code := b.code;
  }
}
