/**
 Two-byte jumps on the four-byte interpreter.

 The benchmark says that the interpreter reads two-byte jump operands; the
 interpreter reads four bytes.  No jump of a program encoded with two-byte
 operands can then reach its target, and the branch loop never returns its count.
 */
module Widths {
  import opened Bytes
  import opened Options
  import opened Machine
  import opened Assembler
  import opened Loops
  import W = Workloads
  import Results

  lemma {:induction false} FourBytes(s: seq<byte>)
    requires |s| == 4
    ensures LeValue(s) == LeValue(s[..2]) + 0x1_0000 * LeValue(s[2..])
  {
    assert s[1..][1..] == s[2..];
    assert s[..2][1..] == [s[1]];
    assert LeValue([s[1]]) == s[1];
    assert LeValue(s) == s[0] + 256 * LeValue(s[1..]);
    assert LeValue(s[1..]) == s[1] + 256 * LeValue(s[2..]);
    assert LeValue(s[..2]) == s[0] + 256 * LeValue(s[..2][1..]);
  }

  lemma {:induction false} WideOperandDiffers(code: seq<byte>, ip: nat, rel: int)
    requires ip + 4 <= |code| && FitsSigned(rel, 2) && code[ip..ip + 2] == LeBytes(rel, 2)
    ensures Operand(code, ip, 4).Some? && Operand(code, ip, 4).value != rel - 2
  {
    var field := code[ip..ip + 4];
    assert field[..2] == LeBytes(rel, 2);
    FourBytes(field);
    FieldWidths();
    LeRoundTrip(rel, 2);
    var high: int := LeValue(field[2..]);
    assert Signed(LeValue(field), 4) == rel + 0x1_0000 * high
        || Signed(LeValue(field), 4) == rel + 0x1_0000 * (high + 1)
        || Signed(LeValue(field), 4) == rel + 0x1_0000 * (high - 0x1_0000)
        || Signed(LeValue(field), 4) == rel + 0x1_0000 * (high - 0x1_0000 + 1);
  }

  /**
   Whatever follows it, a jump encoded with a two-byte operand and read with four
   bytes does not go to its target.
   */
  lemma {:induction false} WideReadMisses(p: seq<Instr>, k: nat, ip: nat)
    requires Encodable(p, 2) && k < |p| && p[k].Goto? && ip == Offset(p, k, 2) + 1
    requires ip + 4 <= |Encode(p, 2)|
    ensures Operand(Encode(p, 2), ip, 4).Some?
    ensures ip + 4 + Operand(Encode(p, 2), ip, 4).value != Offset(p, p[k].target, 2)
  {
    var code, rel := Encode(p, 2), Distance(p, k, 2);
    assert Immediate(p[k], 2, rel);
    NarrowField(p, k, ip);
    WideOperandDiffers(code, ip, rel);
    assert Offset(p, k + 1, 2) == ip + 2;
  }

  lemma {:induction false} NarrowField(p: seq<Instr>, k: nat, ip: nat)
    requires TargetsInside(p) && k < |p| && p[k].Goto? && ip == Offset(p, k, 2) + 1
    ensures ip + 2 <= |Encode(p, 2)| && Encode(p, 2)[ip..ip + 2] == LeBytes(Distance(p, k, 2), 2)
  {
    hide EncodeUpTo, TargetsInside, LeBytes;
    EncodedSlice(p, k, |p|, 2);
    assert Encode(p, 2)[ip..ip + 2] == Encode(p, 2)[ip - 1..ip + 2][1..];
  }

  // The branch loop, byte for byte.

  function Listing(n: int): seq<Instr>
  {
    [Const(0), Put(0), Load(0), Const(n), Bin(Lt), Goto(IfFalse, 11), Load(0), Const(1), Bin(Add), Put(0),
     Goto(Always, 2), Load(0), Ret]
  }

  lemma {:induction false} BranchLoopListing(n: int)
    ensures CompileProgram(W.BranchLoop(n)) == Listing(n)
  {
    W.IncrementCode(0, 6);
    assert CompileExpr(Var(0)) == [Load(0)] && CompileExpr(Lit(n)) == [Const(n)];
    assert CompileExpr(W.Below(0, n)) == [Load(0), Const(n), Bin(Lt)];
    var loop := While(W.Below(0, n), W.Increment(0));
    assert Compile(loop, 2)
        == LoopCode([Load(0), Const(n), Bin(Lt)], [Load(0), Const(1), Bin(Add), Put(0)], 2);
    assert Compile(W.Zero(0), 0) == [Const(0), Put(0)];
  }

  lemma {:induction false} ListingOffsets(n: int)
    ensures Offset(Listing(n), 0, 2) == 0 && Offset(Listing(n), 1, 2) == 5
    ensures Offset(Listing(n), 2, 2) == 8 && Offset(Listing(n), 3, 2) == 11
    ensures Offset(Listing(n), 4, 2) == 16 && Offset(Listing(n), 5, 2) == 17
    ensures Offset(Listing(n), 6, 2) == 20 && Offset(Listing(n), 7, 2) == 23
    ensures Offset(Listing(n), 8, 2) == 28 && Offset(Listing(n), 9, 2) == 29
    ensures Offset(Listing(n), 10, 2) == 32 && Offset(Listing(n), 11, 2) == 35
    ensures Offset(Listing(n), 13, 2) == 39
  {
    var p := Listing(n);
    assert Offset(p, 1, 2) == 5;
    assert Offset(p, 2, 2) == 8;
    assert Offset(p, 3, 2) == 11;
    assert Offset(p, 4, 2) == 16;
    assert Offset(p, 5, 2) == 17;
    assert Offset(p, 6, 2) == 20;
    assert Offset(p, 7, 2) == 23;
    assert Offset(p, 8, 2) == 28;
    assert Offset(p, 9, 2) == 29;
    assert Offset(p, 10, 2) == 32;
    assert Offset(p, 11, 2) == 35;
    assert Offset(p, 12, 2) == 38;
  }

  /** An instruction other than a jump does the same under either width. */
  lemma {:induction false} StepAtFour(n: int, code: seq<byte>, k: nat, stack: seq<Value>, next: int)
    requires IsI32(n) && Encodable(Listing(n), 2) && code == Encode(Listing(n), 2)
    requires k < 12 && !Listing(n)[k].Goto? && next == Offset(Listing(n), k + 1, 2)
    ensures Step(code, 4, 1, Running(Offset(Listing(n), k, 2), stack)) == Effect(Listing(n)[k], stack, next, 0)
  {
    EncodedHolds(Listing(n), 2, k);
    StepEffect(code, 4, 1, Offset(Listing(n), k, 2), stack, Listing(n)[k], next, 0);
  }

  /** The exit jump's operand runs into the load that follows it. */
  lemma {:induction false} ExitOperand(n: int, code: seq<byte>)
    requires IsI32(n) && Encodable(Listing(n), 2) && code == Encode(Listing(n), 2)
    ensures |code| == 39 && code[17] == JMP_IF_FALSE && code[22] == NOP
    ensures Operand(code, 18, 4) == Some(0x10_000F)
  {
    var p := Listing(n);
    ListingOffsets(n);
    EncodedSlice(p, 5, 13, 2);
    EncodedSlice(p, 6, 13, 2);
    assert LeBytes(15, 2) == [15, 0] && LeBytes(0, 2) == [0, 0] by {
      assert LeBytes(0, 1) == [0];
    }
    assert EncodeAt(p, 5, 2) == [JMP_IF_FALSE, 15, 0];
    assert EncodeAt(p, 6, 2) == [LOAD_LOCAL, 0, 0];
    Adjacent(code, 17, [JMP_IF_FALSE, 15, 0], [LOAD_LOCAL, 0, 0]);
    assert LOAD_LOCAL == 0x10;
    LittleEndian(15, 0, 0x10, 0);
    FieldWidths();
  }

  /** Two neighbouring instructions of three bytes, and the four bytes across them. */
  lemma {:induction false} Adjacent(code: seq<byte>, i: nat, a: seq<byte>, b: seq<byte>)
    requires i + 6 <= |code| && |a| == 3 && |b| == 3
    requires code[i..i + 3] == a && code[i + 3..i + 6] == b
    ensures code[i] == a[0] && code[i + 5] == b[2]
    ensures code[i + 1..i + 5] == [a[1], a[2], b[0], b[1]]
  {
    assert code[i] == code[i..i + 3][0] && code[i + 1] == code[i..i + 3][1] && code[i + 2] == code[i..i + 3][2];
    assert code[i + 3] == code[i + 3..i + 6][0] && code[i + 4] == code[i + 3..i + 6][1] && code[i + 5] == code[i + 3..i + 6][2];
  }

  lemma {:induction false} LittleEndian(a: byte, b: byte, c: byte, d: byte)
    ensures LeValue([a, b, c, d]) == a + 256 * b + 0x1_0000 * c + 0x100_0000 * d
  {
    assert [a, b, c, d][1..] == [b, c, d] && [b, c, d][1..] == [c, d] && [c, d][1..] == [d];
    assert LeValue([d]) == d;
    assert LeValue([c, d]) == c + 256 * d;
    assert LeValue([b, c, d]) == b + 256 * c + 0x1_0000 * d;
  }

  /** Up to the exit test both widths agree. */
  lemma {:induction false} ReachesTest(n: int, code: seq<byte>)
    requires IsI32(n) && Encodable(Listing(n), 2) && code == Encode(Listing(n), 2)
    ensures Run(code, 4, 1, Entry(1), 5) == Running(17, [I32(0), Bool(0 < n)])
  {
    ListingOffsets(n);
    StepAtFour(n, code, 0, [Null], 5);
    StepAtFour(n, code, 1, [Null, I32(0)], 8);
    StepAtFour(n, code, 2, [I32(0)], 11);
    StepAtFour(n, code, 3, [I32(0), I32(0)], 16);
    StepAtFour(n, code, 4, [I32(0), I32(0), I32(n)], 17);
    assert Entry(1) == Running(0, [Null]);
    assert [Null] + [I32(0)] == [Null, I32(0)] && [Null, I32(0)][..1][0 := I32(0)] == [I32(0)];
    assert [I32(0)] + [I32(0)] == [I32(0), I32(0)];
    assert [I32(0), I32(0)] + [I32(n)] == [I32(0), I32(0), I32(n)];
    assert [I32(0), I32(0), I32(n)][..1] + [Bool(0 < n)] == [I32(0), Bool(0 < n)];
    var s1 := Running(5, [Null, I32(0)]);
    var s2 := Running(8, [I32(0)]);
    var s3 := Running(11, [I32(0), I32(0)]);
    var s4 := Running(16, [I32(0), I32(0), I32(n)]);
    var s5 := Running(17, [I32(0), Bool(0 < n)]);
    assert Run(code, 4, 1, s5, 0) == s5;
    hide Run, Encode, Step;
    OneStep(code, s4, s5, 0, s5);
    OneStep(code, s3, s4, 1, s5);
    OneStep(code, s2, s3, 2, s5);
    OneStep(code, s1, s2, 3, s5);
    OneStep(code, Entry(1), s1, 4, s5);
  }

  lemma {:induction false} OneStep(code: seq<byte>, s: State, next: State, k: nat, end: State)
    requires s.Running? && Step(code, 4, 1, s) == next && Run(code, 4, 1, next, k) == end
    ensures Run(code, 4, 1, s, k + 1) == end
  {
  }

  lemma {:induction false} RunAdd(code: seq<byte>, w: Width, locals: nat, s: State, i: nat, k: nat)
    ensures Run(code, w, locals, s, i + k) == Run(code, w, locals, Run(code, w, locals, s, i), k)
    decreases i
  {
    if i > 0 {
      RunAdd(code, w, locals, Step(code, w, locals, s), i - 1, k);
    }
  }

  lemma {:induction false} StopsForGood(code: seq<byte>, w: Width, locals: nat, s: State, k: nat)
    requires !s.Running?
    ensures Run(code, w, locals, s, k) == s
    decreases k
  {
    if k > 0 {
      StopsForGood(code, w, locals, s, k - 1);
    }
  }

  /** A machine that stops in two states stops in the same one. */
  lemma {:induction false} OneOutcome(code: seq<byte>, w: Width, locals: nat, s: State, i: nat, k: nat)
    requires !Run(code, w, locals, s, i).Running? && !Run(code, w, locals, s, k).Running?
    ensures Run(code, w, locals, s, i) == Run(code, w, locals, s, k)
  {
    if i <= k {
      RunAdd(code, w, locals, s, i, k - i);
      StopsForGood(code, w, locals, Run(code, w, locals, s, i), k - i);
    } else {
      RunAdd(code, w, locals, s, k, i - k);
      StopsForGood(code, w, locals, Run(code, w, locals, s, k), i - k);
    }
  }

  /**
   On the four-byte interpreter the branch loop leaves the code and returns null
   when it should return zero at once, and otherwise overwrites its own counter
   and fails.
   */
  lemma {:induction false} BranchLoopAtFour(n: int, code: seq<byte>)
    requires IsI32(n) && Encodable(Listing(n), 2) && code == Encode(Listing(n), 2)
    ensures n <= 0 ==> Run(code, 4, 1, Entry(1), 7) == Returned(Null, [I32(0)])
    ensures n > 0 ==> Run(code, 4, 1, Entry(1), 10) == Failed
  {
    ReachesTest(n, code);
    ExitOperand(n, code);
    var test := Running(17, [I32(0), Bool(0 < n)]);
    assert test.stack[..1] == [I32(0)];
    assert Step(code, 4, 1, test) == Running(if 0 < n then 22 else 22 + 0x10_000F, [I32(0)]);
    if n <= 0 {
      var out := Running(22 + 0x10_000F, [I32(0)]);
      assert Run(code, 4, 1, out, 1) == Run(code, 4, 1, Returned(Null, [I32(0)]), 0);
      assert Run(code, 4, 1, test, 2) == Returned(Null, [I32(0)]);
      RunAdd(code, 4, 1, Entry(1), 5, 2);
    } else {
      SkewedBody(n, code);
      assert Run(code, 4, 1, test, 5) == Run(code, 4, 1, Running(22, [I32(0)]), 4);
      RunAdd(code, 4, 1, Entry(1), 5, 5);
    }
  }

  /** Two bytes further on, the body adds into the counter's own stack slot. */
  lemma {:induction false} SkewedBody(n: int, code: seq<byte>)
    requires IsI32(n) && Encodable(Listing(n), 2) && code == Encode(Listing(n), 2)
    ensures Run(code, 4, 1, Running(22, [I32(0)]), 4) == Failed
  {
    ListingOffsets(n);
    ExitOperand(n, code);
    StepAtFour(n, code, 7, [I32(0)], 28);
    StepAtFour(n, code, 8, [I32(0), I32(1)], 29);
    StepAtFour(n, code, 9, [I32(1)], 32);
    assert [I32(0)] + [I32(1)] == [I32(0), I32(1)];
    assert [I32(0), I32(1)][..0] + [I32(1)] == [I32(1)];
    var s0, s1, s2, s3 := Running(22, [I32(0)]), Running(23, [I32(0)]), Running(28, [I32(0), I32(1)]), Running(29, [I32(1)]);
    assert Step(code, 4, 1, s0) == s1 && Step(code, 4, 1, s1) == s2;
    assert Step(code, 4, 1, s2) == s3 && Step(code, 4, 1, s3) == Failed;
    assert Run(code, 4, 1, s3, 1) == Run(code, 4, 1, Failed, 0);
    assert Run(code, 4, 1, s2, 2) == Failed;
    assert Run(code, 4, 1, s1, 3) == Failed;
  }

  /** The bytes the benchmark emits return the loop's count exactly on the two-byte machine. */
  lemma {:induction false} BranchLoopNeedsTwoBytes(n: int, w: Width)
    requires IsI32(n)
    ensures Encodable(CompileProgram(W.BranchLoop(n)), 2)
    ensures Yields(Encode(CompileProgram(W.BranchLoop(n)), 2), w, 1, I32(Results.AtLeast0(n))) <==> w == 2
  {
    Results.BranchLoopOnBytes(n, 2);
    BranchLoopListing(n);
    var code, v := Encode(CompileProgram(W.BranchLoop(n)), 2), I32(Results.AtLeast0(n));
    if w == 4 {
      BranchLoopAtFour(n, code);
      forall k: nat | ReturnsAt(code, w, 1, v, k)
        ensures false
      {
        OneOutcome(code, w, 1, Entry(1), if n <= 0 then 7 else 10, k);
      }
    }
  }
}
