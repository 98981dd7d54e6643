/**
 The stack machine that runs the emitted bytecode, one instruction at a time.

 A frame's local variables live at the bottom of the operand stack, so popping
 too much eats into them.  Jump operands are read with a given width: the
 benchmark and the JIT decoder use two bytes, the interpreter four.
 */
module Machine {
  import opened Bytes
  import opened Options

  datatype Value = Null | Bool(b: bool) | I32(n: int)

  /** Two-byte or four-byte jump operands. */
  type Width = w: nat | w == 2 || w == 4 witness 2

  datatype Op = Add | Sub | Mul | Mod | Eq | Lt

  datatype Jump = Always | IfFalse

  datatype State =
    | Running(ip: int, stack: seq<Value>)
    | Returned(value: Value, rest: seq<Value>)
    | Failed
    | Unmodelled(opcode: byte)

  const NOP: byte := 0x00
  const CONST_I32: byte := 0x07
  const LOAD_LOCAL: byte := 0x10
  const STORE_LOCAL: byte := 0x11
  const JMP: byte := 0x90
  const JMP_IF_FALSE: byte := 0x91
  const RETURN: byte := 0xA2

  function OpByte(op: Op): byte
  {
    match op
    case Add => 0x20
    case Sub => 0x21
    case Mul => 0x22
    case Mod => 0x24
    case Eq => 0x50
    case Lt => 0x52
  }

  function OpOf(b: byte): Option<Op>
  {
    if b == 0x20 then Some(Add)
    else if b == 0x21 then Some(Sub)
    else if b == 0x22 then Some(Mul)
    else if b == 0x24 then Some(Mod)
    else if b == 0x50 then Some(Eq)
    else if b == 0x52 then Some(Lt)
    else None
  }

  function JumpByte(j: Jump): byte
  {
    if j.Always? then JMP else JMP_IF_FALSE
  }

  predicate IsI32(x: int)
  {
    -0x8000_0000 <= x < 0x8000_0000
  }

  /** Two's complement wrap-around to 32 bits (`wrapping_add` and friends). */
  function Wrap(x: int): (r: int)
    ensures IsI32(r)
  {
    (x + 0x8000_0000) % 0x1_0000_0000 - 0x8000_0000
  }

  /** That is the one 32-bit value congruent to x. */
  lemma {:induction false} WrapExact(x: int, r: int)
    ensures r == Wrap(x) <==> IsI32(r) && (x - r) % 0x1_0000_0000 == 0
  {
    var q := (x + 0x8000_0000) / 0x1_0000_0000;
    assert x - Wrap(x) == q * 0x1_0000_0000;
  }

  /** Remainder with the sign of the dividend (`wrapping_rem`). */
  function Rem(a: int, b: int): int
    requires b != 0
  {
    var d := if b < 0 then -b else b;
    if a < 0 then -((-a) % d) else a % d
  }

  /** An operand that is not an i32 counts as zero. */
  function AsI32(v: Value): int
  {
    if v.I32? then v.n else 0
  }

  function Truthy(v: Value): bool
  {
    match v
    case Null => false
    case Bool(b) => b
    case I32(n) => n != 0
  }

  /** The binary instructions; only a remainder by zero has no result. */
  function Apply(op: Op, a: Value, b: Value): Option<Value>
  {
    var x, y := AsI32(a), AsI32(b);
    match op
    case Add => Some(I32(Wrap(x + y)))
    case Sub => Some(I32(Wrap(x - y)))
    case Mul => Some(I32(Wrap(x * y)))
    case Mod => if y == 0 then None else Some(I32(Rem(x, y)))
    case Eq => Some(Bool(x == y))
    case Lt => Some(Bool(x < y))
  }

  /** The value popped by a return, and what stays below it. */
  function PopReturn(stack: seq<Value>): State
  {
    if stack == [] then Returned(Null, [])
    else Returned(stack[|stack| - 1], stack[..|stack| - 1])
  }

  function Pushed(ip: int, stack: seq<Value>, v: Value): State
  {
    Running(ip, stack + [v])
  }

  /** A signed operand of w bytes at ip, when the code is long enough. */
  function Operand(code: seq<byte>, ip: nat, w: nat): Option<int>
  {
    if ip + w > |code| then None else Some(Signed(LeValue(code[ip..ip + w]), w))
  }

  function Store(ip: int, stack: seq<Value>, x: nat): State
  {
    if stack == [] then Failed else
      var rest := stack[..|stack| - 1];
      if x >= |rest| then Failed else Running(ip, rest[x := stack[|stack| - 1]])
  }

  function Binary(ip: int, stack: seq<Value>, op: Op): State
  {
    var d := |stack|;
    if d < 2 then Failed else
      match Apply(op, stack[d - 2], stack[d - 1])
      case None => Failed
      case Some(v) => Pushed(ip, stack[..d - 2], v)
  }

  /** A jump whose operand has been read: next is the address after it. */
  function Branch(next: int, stack: seq<Value>, j: Jump, target: int): State
  {
    match j
    case Always => Running(target, stack)
    case IfFalse =>
      if stack == [] then Failed else
        var rest := stack[..|stack| - 1];
        Running(if Truthy(stack[|stack| - 1]) then next else target, rest)
  }

  /**
   One instruction of a frame with the given number of locals.  Outside the
   code a frame returns implicitly; an opcode the model does not cover is
   reported as such.
   */
  function Step(code: seq<byte>, w: Width, locals: nat, s: State): State
  {
    if !s.Running? then s
    else if !(0 <= s.ip < |code|) then
      if |s.stack| > locals then PopReturn(s.stack) else Returned(Null, s.stack)
    else
      var b, ip, stack := code[s.ip], s.ip + 1, s.stack;
      if b == NOP then Running(ip, stack)
      else if b == CONST_I32 then
        match Operand(code, ip, 4)
        case None => Failed
        case Some(n) => Pushed(ip + 4, stack, I32(n))
      else if b == LOAD_LOCAL then
        if ip + 2 > |code| then Failed else
          var x := LeValue(code[ip..ip + 2]);
          if x >= |stack| then Failed else Pushed(ip + 2, stack, stack[x])
      else if b == STORE_LOCAL then
        if ip + 2 > |code| then Failed else Store(ip + 2, stack, LeValue(code[ip..ip + 2]))
      else if b == JMP || b == JMP_IF_FALSE then
        match Operand(code, ip, w)
        case None => Failed
        case Some(rel) => Branch(ip + w, stack, if b == JMP then Always else IfFalse, ip + w + rel)
      else if b == RETURN then PopReturn(stack)
      else match OpOf(b)
        case Some(op) => Binary(ip, stack, op)
        case None => Unmodelled(b)
  }

  function Run(code: seq<byte>, w: Width, locals: nat, s: State, k: nat): State
    decreases k
  {
    if k == 0 then s else Run(code, w, locals, Step(code, w, locals, s), k - 1)
  }

  /** A fresh frame: every local is null and execution starts at address 0. */
  function Entry(locals: nat): State
  {
    Running(0, seq(locals, _ => Null))
  }

  /** The code run from a fresh frame halts, returns v and leaves just the locals on the stack. */
  ghost predicate Yields(code: seq<byte>, w: Width, locals: nat, v: Value)
  {
    exists k: nat :: ReturnsAt(code, w, locals, v, k)
  }

  predicate ReturnsAt(code: seq<byte>, w: Width, locals: nat, v: Value, k: nat)
  {
    var s := Run(code, w, locals, Entry(locals), k);
    s.Returned? && s.value == v && |s.rest| == locals
  }
}
