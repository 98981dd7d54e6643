/**
 Instructions with symbolic jump targets, and their encoding into bytes.

 A program is a sequence of instructions whose jumps name the index of the
 instruction they go to.  Encoding replaces each index by the distance in bytes
 from the end of the jump's operand.
 */
module Assembler {
  import opened Bytes
  import opened Options
  import opened Machine

  datatype Instr =
    | Const(n: int)
    | Load(x: nat)
    | Put(x: nat)
    | Bin(op: Op)
    | Goto(j: Jump, target: nat)
    | Ret

  function Size(i: Instr, w: Width): (r: nat)
    ensures 1 <= r <= 5
  {
    match i
    case Const(_) => 5
    case Load(_) => 3
    case Put(_) => 3
    case Bin(_) => 1
    case Goto(_, _) => 1 + w
    case Ret => 1
  }

  /** The address of instruction k. */
  function Offset(p: seq<Instr>, k: nat, w: Width): (r: nat)
    requires k <= |p|
    ensures k <= r <= 5 * k
  {
    if k == 0 then 0 else Offset(p, k - 1, w) + Size(p[k - 1], w)
  }

  predicate TargetsInside(p: seq<Instr>)
  {
    forall k :: 0 <= k < |p| && p[k].Goto? ==> p[k].target <= |p|
  }

  /** The bytes of one instruction; rel is the distance of a jump. */
  function InstrBytes(i: Instr, w: Width, rel: int): (r: seq<byte>)
    ensures |r| == Size(i, w)
  {
    match i
    case Const(n) => [CONST_I32] + LeBytes(n, 4)
    case Load(x) => [LOAD_LOCAL] + LeBytes(x, 2)
    case Put(x) => [STORE_LOCAL] + LeBytes(x, 2)
    case Bin(op) => [OpByte(op)]
    case Goto(j, _) => [JumpByte(j)] + LeBytes(rel, w)
    case Ret => [RETURN]
  }

  /** The bytes of instructions, written out. */
  lemma {:induction false} BytesWrittenOut(w: Width, rel: int)
    ensures InstrBytes(Bin(Add), w, rel) == [0x20] && InstrBytes(Bin(Sub), w, rel) == [0x21]
    ensures InstrBytes(Bin(Mul), w, rel) == [0x22] && InstrBytes(Bin(Mod), w, rel) == [0x24]
    ensures InstrBytes(Bin(Eq), w, rel) == [0x50] && InstrBytes(Bin(Lt), w, rel) == [0x52]
    ensures InstrBytes(Ret, w, rel) == [0xA2]
    ensures InstrBytes(Load(0x102), w, rel) == [0x10, 2, 1] && InstrBytes(Put(0x102), w, rel) == [0x11, 2, 1]
    ensures InstrBytes(Const(0x102), w, rel) == [0x07, 2, 1, 0, 0]
    ensures InstrBytes(Goto(Always, 0), 2, 5) == [0x90, 5, 0] && InstrBytes(Goto(IfFalse, 0), 2, 5) == [0x91, 5, 0]
  {
    SmallBytes();
  }

  lemma {:induction false} SmallBytes()
    ensures LeBytes(0x102, 2) == [2, 1] && LeBytes(0x102, 4) == [2, 1, 0, 0] && LeBytes(5, 2) == [5, 0]
  {
    assert LeBytes(0, 0) == [] && LeBytes(0, 1) == [0] && LeBytes(0, 2) == [0, 0];
    assert LeBytes(1, 1) == [1] && LeBytes(1, 3) == [1, 0, 0];
  }

  /** The distance of the jump at k, counted from the end of its operand. */
  function Distance(p: seq<Instr>, k: nat, w: Width): int
    requires k < |p| && TargetsInside(p)
  {
    if p[k].Goto? then Offset(p, p[k].target, w) - Offset(p, k + 1, w) else 0
  }

  /** Immediates fit their fields, and so does the distance of a jump. */
  predicate Immediate(i: Instr, w: Width, rel: int)
  {
    match i
    case Const(n) => IsI32(n)
    case Load(x) => x < 0x1_0000
    case Put(x) => x < 0x1_0000
    case Goto(_, _) => FitsSigned(rel, w)
    case _ => true
  }

  predicate Encodable(p: seq<Instr>, w: Width)
  {
    TargetsInside(p) && forall k :: 0 <= k < |p| ==> Immediate(p[k], w, Distance(p, k, w))
  }

  function EncodeAt(p: seq<Instr>, k: nat, w: Width): (r: seq<byte>)
    requires k < |p| && TargetsInside(p)
    ensures |r| == Size(p[k], w)
  {
    InstrBytes(p[k], w, Distance(p, k, w))
  }

  /** The bytes of the first k instructions. */
  function EncodeUpTo(p: seq<Instr>, k: nat, w: Width): (r: seq<byte>)
    requires k <= |p| && TargetsInside(p)
    ensures |r| == Offset(p, k, w)
  {
    if k == 0 then [] else EncodeUpTo(p, k - 1, w) + EncodeAt(p, k - 1, w)
  }

  function Encode(p: seq<Instr>, w: Width): (r: seq<byte>)
    requires TargetsInside(p)
    ensures |r| == Offset(p, |p|, w)
  {
    EncodeUpTo(p, |p|, w)
  }

  lemma {:induction false} OffsetMonotone(p: seq<Instr>, i: nat, k: nat, w: Width)
    requires i <= k <= |p|
    ensures Offset(p, i, w) + (k - i) <= Offset(p, k, w)
    decreases k - i
  {
    if i < k {
      OffsetMonotone(p, i, k - 1, w);
    }
  }

  /** The piece stands at position i of the code. */
  predicate Stretch(code: seq<byte>, i: nat, piece: seq<byte>)
  {
    i + |piece| <= |code| && code[i..i + |piece|] == piece
  }

  lemma {:induction false} StretchOfFirst(a: seq<byte>, b: seq<byte>, i: nat, piece: seq<byte>)
    requires Stretch(a, i, piece)
    ensures Stretch(a + b, i, piece)
  {
    assert (a + b)[i..i + |piece|] == a[i..i + |piece|];
  }

  lemma {:induction false} StretchOfSecond(a: seq<byte>, b: seq<byte>)
    ensures Stretch(a + b, |a|, b)
  {
  }

  lemma {:induction false} EncodedStretch(p: seq<Instr>, k: nat, m: nat, w: Width)
    requires k < m <= |p| && TargetsInside(p)
    ensures Stretch(EncodeUpTo(p, m, w), Offset(p, k, w), EncodeAt(p, k, w))
    decreases m
  {
    hide EncodeAt, TargetsInside, Stretch;
    var front, last := EncodeUpTo(p, m - 1, w), EncodeAt(p, m - 1, w);
    if k == m - 1 {
      StretchOfSecond(front, last);
    } else {
      EncodedStretch(p, k, m - 1, w);
      StretchOfFirst(front, last, Offset(p, k, w), EncodeAt(p, k, w));
    }
  }

  /** Instruction k occupies its own stretch of the encoded program. */
  lemma {:induction false} EncodedSlice(p: seq<Instr>, k: nat, m: nat, w: Width)
    requires k < m <= |p| && TargetsInside(p)
    ensures Offset(p, k, w) + Size(p[k], w) <= Offset(p, m, w)
    ensures EncodeUpTo(p, m, w)[Offset(p, k, w)..Offset(p, k, w) + Size(p[k], w)] == EncodeAt(p, k, w)
  {
    EncodedStretch(p, k, m, w);
  }

  // The machine on symbolic programs.

  datatype AState =
    | At(pc: nat, stack: seq<Value>)
    | Done(value: Value, rest: seq<Value>)
    | Stuck

  function OfState(s: State, pc: nat): AState
  {
    match s
    case Running(_, st) => At(pc, st)
    case Returned(v, st) => Done(v, st)
    case _ => Stuck
  }

  function AStep(p: seq<Instr>, locals: nat, s: AState): AState
  {
    if !s.At? then s
    else if s.pc >= |p| then
      if |s.stack| > locals then OfState(PopReturn(s.stack), 0) else Done(Null, s.stack)
    else
      var d := |s.stack|;
      match p[s.pc]
      case Const(n) => At(s.pc + 1, s.stack + [I32(n)])
      case Load(x) => if x >= d then Stuck else At(s.pc + 1, s.stack + [s.stack[x]])
      case Put(x) => OfState(Store(0, s.stack, x), s.pc + 1)
      case Bin(op) => OfState(Binary(0, s.stack, op), s.pc + 1)
      case Goto(Always, t) => At(t, s.stack)
      case Goto(IfFalse, t) =>
        if d == 0 then Stuck
        else At(if Truthy(s.stack[d - 1]) then s.pc + 1 else t, s.stack[..d - 1])
      case Ret => OfState(PopReturn(s.stack), 0)
  }

  function ARun(p: seq<Instr>, locals: nat, s: AState, k: nat): AState
    decreases k
  {
    if k == 0 then s else ARun(p, locals, AStep(p, locals, s), k - 1)
  }

  /** A symbolic state seen at the level of bytes. */
  function Lift(p: seq<Instr>, w: Width, s: AState): State
    requires s.At? ==> s.pc <= |p|
  {
    match s
    case At(pc, st) => Running(Offset(p, pc, w), st)
    case Done(v, st) => Returned(v, st)
    case Stuck => Failed
  }

  lemma {:induction false} ARunAdd(p: seq<Instr>, locals: nat, s: AState, i: nat, k: nat)
    ensures ARun(p, locals, s, i + k) == ARun(p, locals, ARun(p, locals, s, i), k)
    decreases i
  {
    if i > 0 {
      ARunAdd(p, locals, AStep(p, locals, s), i - 1, k);
    }
  }

  /** Some number of steps leads from s to t. */
  ghost predicate Reaches(p: seq<Instr>, locals: nat, s: AState, t: AState)
  {
    exists k: nat :: ARun(p, locals, s, k) == t
  }

  lemma {:induction false} ReachesSelf(p: seq<Instr>, locals: nat, s: AState)
    ensures Reaches(p, locals, s, s)
  {
    assert ARun(p, locals, s, 0) == s;
  }

  lemma {:induction false} ReachesNext(p: seq<Instr>, locals: nat, s: AState)
    ensures Reaches(p, locals, s, AStep(p, locals, s))
  {
    assert ARun(p, locals, AStep(p, locals, s), 0) == AStep(p, locals, s);
    assert ARun(p, locals, s, 1) == AStep(p, locals, s);
  }

  lemma {:induction false} ReachesTrans(p: seq<Instr>, locals: nat, s: AState, t: AState, u: AState)
    requires Reaches(p, locals, s, t) && Reaches(p, locals, t, u)
    ensures Reaches(p, locals, s, u)
  {
    var i: nat :| ARun(p, locals, s, i) == t;
    var k: nat :| ARun(p, locals, t, k) == u;
    ARunAdd(p, locals, s, i, k);
  }

  /** Reading back a signed field. */
  lemma {:induction false} SignedField(code: seq<byte>, ip: nat, w: nat, x: int)
    requires FitsSigned(x, w) && ip + w <= |code|
    requires code[ip..ip + w] == LeBytes(x, w)
    ensures Operand(code, ip, w) == Some(x)
  {
    SignedRoundTrip(x, w);
  }

  lemma {:induction false} FieldWidths()
    ensures Pow256(2) == 0x1_0000 && Pow256(4) == 0x1_0000_0000
  {
    assert Pow256(1) == 256;
    assert Pow256(3) == 0x100_0000;
  }

  /** The code holds instruction i at ip, and a jump there goes to the given address. */
  predicate Holds(code: seq<byte>, w: Width, ip: nat, i: Instr, target: int)
  {
    && ip + Size(i, w) <= |code|
    && match i
       case Const(n) => code[ip] == CONST_I32 && Operand(code, ip + 1, 4) == Some(n)
       case Load(x) => code[ip] == LOAD_LOCAL && LeValue(code[ip + 1..ip + 3]) == x
       case Put(x) => code[ip] == STORE_LOCAL && LeValue(code[ip + 1..ip + 3]) == x
       case Bin(op) => code[ip] == OpByte(op)
       case Goto(j, _) =>
         code[ip] == JumpByte(j) && Operand(code, ip + 1, w) == Some(target - (ip + 1 + w))
       case Ret => code[ip] == RETURN
  }

  /** The bytes of an instruction read back as that instruction. */
  lemma {:induction false} BytesHold(code: seq<byte>, w: Width, ip: nat, i: Instr, rel: int)
    requires ip + Size(i, w) <= |code| && Immediate(i, w, rel)
    requires code[ip..ip + Size(i, w)] == InstrBytes(i, w, rel)
    ensures Holds(code, w, ip, i, ip + Size(i, w) + rel)
  {
    var field := code[ip + 1..ip + Size(i, w)];
    assert code[ip] == InstrBytes(i, w, rel)[0];
    assert field == code[ip..ip + Size(i, w)][1..];
    FieldWidths();
    match i {
      case Const(n) => SignedField(code, ip + 1, 4, n);
      case Load(x) => LeRoundTrip(x, 2);
      case Put(x) => LeRoundTrip(x, 2);
      case Goto(_, _) => SignedField(code, ip + 1, w, rel);
      case _ =>
    }
  }

  lemma {:induction false} EncodedHolds(p: seq<Instr>, w: Width, k: nat)
    requires Encodable(p, w) && k < |p|
    ensures Holds(Encode(p, w), w, Offset(p, k, w), p[k], Offset(p, k + 1, w) + Distance(p, k, w))
  {
    hide EncodeUpTo;
    EncodedSlice(p, k, |p|, w);
    BytesHold(Encode(p, w), w, Offset(p, k, w), p[k], Distance(p, k, w));
  }

  /** In a short program every jump distance fits its operand. */
  lemma {:induction false} ShortDistance(p: seq<Instr>, w: Width, k: nat)
    requires TargetsInside(p) && k < |p| && |p| <= 6000
    ensures FitsSigned(Distance(p, k, w), w)
  {
    OffsetMonotone(p, k + 1, |p|, w);
    if p[k].Goto? {
      OffsetMonotone(p, p[k].target, |p|, w);
    }
    FieldWidths();
  }

  /** What the instruction does, given the addresses it may continue at. */
  function Effect(i: Instr, stack: seq<Value>, next: int, target: int): State
  {
    match i
    case Const(n) => Pushed(next, stack, I32(n))
    case Load(x) => if x >= |stack| then Failed else Pushed(next, stack, stack[x])
    case Put(x) => Store(next, stack, x)
    case Bin(op) => Binary(next, stack, op)
    case Goto(j, _) => Branch(next, stack, j, target)
    case Ret => PopReturn(stack)
  }

  lemma {:induction false} StepEffect(code: seq<byte>, w: Width, locals: nat, ip: nat, stack: seq<Value>,
                   i: Instr, next: int, target: int)
    requires Holds(code, w, ip, i, target) && next == ip + Size(i, w)
    ensures Step(code, w, locals, Running(ip, stack)) == Effect(i, stack, next, target)
  {
  }

  /**
   Encoding preserves meaning: on the encoded bytes the machine takes, from the
   address of each instruction, exactly the step of the symbolic program, and
   every jump lands on the address of its target instruction.
   */
  lemma {:induction false} StepSimulates(p: seq<Instr>, w: Width, locals: nat, s: AState, t: AState)
    requires Encodable(p, w) && t == AStep(p, locals, s)
    requires s.At? ==> s.pc <= |p|
    ensures t.At? ==> t.pc <= |p|
    ensures Step(Encode(p, w), w, locals, Lift(p, w, s)) == Lift(p, w, t)
  {
    if s.At? && s.pc < |p| {
      InsideSimulates(p, Encode(p, w), w, locals, s, t);
    } else if s.At? {
      StepOutside(Encode(p, w), w, locals, s.stack);
    }
  }

  lemma {:induction false} InsideSimulates(p: seq<Instr>, code: seq<byte>, w: Width, locals: nat, s: AState, t: AState)
    requires Encodable(p, w) && code == Encode(p, w) && t == AStep(p, locals, s) && s.At? && s.pc < |p|
    ensures t.At? ==> t.pc <= |p|
    ensures Step(code, w, locals, Lift(p, w, s)) == Lift(p, w, t)
  {
    hide Encode, Offset, Step, AStep, Effect, TargetsInside;
    EncodedStep(p, code, w, locals, s.pc, s.stack);
    EffectLifts(p, w, locals, s, t, Offset(p, s.pc + 1, w));
  }

  lemma {:induction false} StepOutside(code: seq<byte>, w: Width, locals: nat, stack: seq<Value>)
    ensures Step(code, w, locals, Running(|code|, stack))
            == if |stack| > locals then PopReturn(stack) else Returned(Null, stack)
  {
  }

  lemma {:induction false} EncodedStep(p: seq<Instr>, code: seq<byte>, w: Width, locals: nat, k: nat, stack: seq<Value>)
    requires Encodable(p, w) && code == Encode(p, w) && k < |p|
    ensures var next := Offset(p, k + 1, w);
            Step(code, w, locals, Running(Offset(p, k, w), stack))
            == Effect(p[k], stack, next, next + Distance(p, k, w))
  {
    hide Encode, Step, Effect;
    var next := Offset(p, k + 1, w);
    EncodedHolds(p, w, k);
    StepEffect(code, w, locals, Offset(p, k, w), stack, p[k], next, next + Distance(p, k, w));
  }

  lemma {:induction false} EffectLifts(p: seq<Instr>, w: Width, locals: nat, s: AState, t: AState, next: int)
    requires TargetsInside(p) && s.At? && s.pc < |p|
    requires t == AStep(p, locals, s) && next == Offset(p, s.pc + 1, w)
    ensures t.At? ==> t.pc <= |p|
    ensures Effect(p[s.pc], s.stack, next, next + Distance(p, s.pc, w)) == Lift(p, w, t)
  {
  }

  lemma {:induction false} RunSimulates(p: seq<Instr>, w: Width, locals: nat, s: AState, t: AState, k: nat)
    requires Encodable(p, w) && t == ARun(p, locals, s, k)
    requires s.At? ==> s.pc <= |p|
    ensures t.At? ==> t.pc <= |p|
    ensures Run(Encode(p, w), w, locals, Lift(p, w, s), k) == Lift(p, w, t)
    decreases k
  {
    if k > 0 {
      StepSimulates(p, w, locals, s, AStep(p, locals, s));
      RunSimulates(p, w, locals, AStep(p, locals, s), t, k - 1);
    }
  }
}
