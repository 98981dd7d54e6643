/**
 The benchmark's code builder: bytes are appended to a buffer, jumps are first
 emitted with a zero operand and later overwritten in place.
 */
module Emitter {
  import opened Bytes
  import opened Options
  import opened Sequences
  import opened Machine
  import opened Assembler

  /** The benchmark's jump operands have two bytes. */
  const W: Width := 2

  lemma {:induction false} OffsetOfPrefix(p: seq<Instr>, q: seq<Instr>, k: nat, w: Width)
    requires k <= |p| && k <= |q|
    requires forall i :: 0 <= i < k ==> Size(p[i], w) == Size(q[i], w)
    ensures Offset(p, k, w) == Offset(q, k, w)
  {
    if k > 0 {
      OffsetOfPrefix(p, q, k - 1, w);
    }
  }

  /** The programs have instructions of the same sizes, as far as p goes. */
  predicate SameSizes(p: seq<Instr>, q: seq<Instr>, w: Width)
  {
    |p| <= |q| && forall i :: 0 <= i < |p| ==> Size(p[i], w) == Size(q[i], w)
  }

  lemma {:induction false} EncodeAtSame(p: seq<Instr>, q: seq<Instr>, k: nat, w: Width)
    requires TargetsInside(p) && TargetsInside(q) && SameSizes(p, q, w)
    requires k < |p| && p[k] == q[k]
    ensures EncodeAt(p, k, w) == EncodeAt(q, k, w)
  {
    assert Distance(p, k, w) == Distance(q, k, w) by {
      OffsetOfPrefix(p, q, k + 1, w);
      if p[k].Goto? {
        OffsetOfPrefix(p, q, p[k].target, w);
      }
    }
  }

  lemma {:induction false} EncodePrefix(p: seq<Instr>, q: seq<Instr>, k: nat, w: Width)
    requires TargetsInside(p) && TargetsInside(q) && SameSizes(p, q, w)
    requires k <= |p| && p[..k] == q[..k]
    ensures EncodeUpTo(p, k, w) == EncodeUpTo(q, k, w)
  {
    hide EncodeAt, TargetsInside;
    if k > 0 {
      assert p[k - 1] == p[..k][k - 1] == q[k - 1];
      assert p[..k - 1] == p[..k][..k - 1] == q[..k - 1];
      EncodePrefix(p, q, k - 1, w);
      EncodeAtSame(p, q, k - 1, w);
    }
  }

  /** Appending an instruction leaves the bytes before it alone. */
  lemma {:induction false} EncodeAppend(p: seq<Instr>, i: Instr, w: Width)
    requires TargetsInside(p) && (i.Goto? ==> i.target == |p| + 1)
    ensures TargetsInside(p + [i])
    ensures Encode(p + [i], w) == Encode(p, w) + InstrBytes(i, w, 0)
  {
    EncodePrefix(p, p + [i], |p|, w);
  }

  /** The bytes of the instructions from k on. */
  function EncodeFrom(p: seq<Instr>, k: nat, w: Width): seq<byte>
    requires k <= |p| && TargetsInside(p)
    decreases |p| - k
  {
    if k == |p| then [] else EncodeAt(p, k, w) + EncodeFrom(p, k + 1, w)
  }

  lemma {:induction false} EncodeSplit(p: seq<Instr>, k: nat, w: Width)
    requires k <= |p| && TargetsInside(p)
    ensures Encode(p, w) == EncodeUpTo(p, k, w) + EncodeFrom(p, k, w)
    decreases |p| - k
  {
    hide EncodeAt, TargetsInside;
    if k < |p| {
      EncodeSplit(p, k + 1, w);
      Regroup(EncodeUpTo(p, k, w), EncodeAt(p, k, w), EncodeFrom(p, k + 1, w));
    }
  }

  lemma {:induction false} EncodeSuffix(p: seq<Instr>, q: seq<Instr>, k: nat, w: Width)
    requires TargetsInside(p) && TargetsInside(q) && SameSizes(p, q, w) && |p| == |q|
    requires k <= |p| && p[k..] == q[k..]
    ensures EncodeFrom(p, k, w) == EncodeFrom(q, k, w)
    decreases |p| - k
  {
    if k < |p| {
      assert p[k] == p[k..][0] == q[k];
      assert p[k + 1..] == p[k..][1..] == q[k + 1..];
      EncodeSuffix(p, q, k + 1, w);
      EncodeAtSame(p, q, k, w);
    }
  }

  /** Redirecting one jump overwrites the bytes of its operand and nothing else. */
  lemma {:induction false} EncodePatched(p: seq<Instr>, q: seq<Instr>, at: nat, pos: nat, rel: int, w: Width)
    requires TargetsInside(p) && TargetsInside(q) && at < |p| == |q|
    requires p[at].Goto? && q[at].Goto? && p[at].j == q[at].j && q == p[at := q[at]]
    requires pos == Offset(p, at, w) + 1 && rel == Offset(p, q[at].target, w) - (pos + w)
    ensures pos + w <= |Encode(p, w)|
    ensures Encode(q, w)
            == Encode(p, w)[..pos] + LeBytes(rel, w) + Encode(p, w)[pos + w..]
  {
    hide EncodeUpTo, EncodeFrom;
    PatchedParts(p, q, at, w);
    PatchedOperand(p, q, at, w);
    Splice(EncodeUpTo(p, at, w), EncodeAt(p, at, w), EncodeAt(q, at, w), EncodeFrom(p, at + 1, w),
           LeBytes(rel, w), pos);
  }

  lemma {:induction false} PatchedOperand(p: seq<Instr>, q: seq<Instr>, at: nat, w: Width)
    requires TargetsInside(p) && TargetsInside(q) && at < |p| == |q|
    requires p[at].Goto? && q[at].Goto? && q == p[at := q[at]]
    ensures Distance(q, at, w) == Offset(p, q[at].target, w) - (Offset(p, at, w) + 1 + w)
  {
    OffsetOfPrefix(p, q, at + 1, w);
    OffsetOfPrefix(p, q, q[at].target, w);
  }

  lemma {:induction false} PatchedParts(p: seq<Instr>, q: seq<Instr>, at: nat, w: Width)
    requires TargetsInside(p) && TargetsInside(q) && at < |p| == |q|
    requires p[at].Goto? && q[at].Goto? && q == p[at := q[at]]
    ensures Encode(p, w) == EncodeUpTo(p, at, w) + EncodeAt(p, at, w) + EncodeFrom(p, at + 1, w)
    ensures Encode(q, w) == EncodeUpTo(p, at, w) + EncodeAt(q, at, w) + EncodeFrom(p, at + 1, w)
  {
    UpdateParts(p, q, at, w);
    EncodeAround(p, at, w);
    EncodeAround(q, at, w);
    EncodePrefix(p, q, at, w);
    EncodeSuffix(p, q, at + 1, w);
  }

  lemma {:induction false} UpdateParts(p: seq<Instr>, q: seq<Instr>, at: nat, w: Width)
    requires at < |p| == |q| && p[at].Goto? && q[at].Goto? && q == p[at := q[at]]
    ensures SameSizes(p, q, w) && p[..at] == q[..at] && p[at + 1..] == q[at + 1..]
  {
  }

  lemma {:induction false} EncodeAround(p: seq<Instr>, at: nat, w: Width)
    requires TargetsInside(p) && at < |p|
    ensures Encode(p, w) == EncodeUpTo(p, at, w) + EncodeAt(p, at, w) + EncodeFrom(p, at + 1, w)
  {
    EncodeSplit(p, at + 1, w);
  }

  /** Two byte strings that differ only in the operand after an opcode. */
  lemma {:induction false} Splice(front: seq<byte>, was: seq<byte>, now: seq<byte>, back: seq<byte>, field: seq<byte>, pos: nat)
    requires pos == |front| + 1 && |was| == |field| + 1 && now == [was[0]] + field
    ensures var before := front + was + back;
            && pos + |field| <= |before|
            && front + now + back == before[..pos] + field + before[pos + |field|..]
  {
    var before := front + was + back;
    assert before[..pos] == front + [was[0]];
    assert before[pos + |field|..] == back;
  }

  class CodeBuffer {
    var code: seq<byte>
    /** The instructions emitted so far; a jump not yet patched goes to its own successor. */
    ghost var prog: seq<Instr>

    ghost predicate Valid()
      reads this
    {
      TargetsInside(prog) && code == Encode(prog, W)
    }

    constructor ()
      ensures Valid() && prog == []
    {
      code, prog := [], [];
    }

    method Emit(op: Op)
      requires Valid()
      modifies this
      ensures Valid() && prog == old(prog) + [Bin(op)]
    {
      EncodeAppend(prog, Bin(op), W);
      code, prog := code + [OpByte(op)], prog + [Bin(op)];
    }

    method EmitReturn()
      requires Valid()
      modifies this
      ensures Valid() && prog == old(prog) + [Ret]
    {
      EncodeAppend(prog, Ret, W);
      code, prog := code + [RETURN], prog + [Ret];
    }

    method EmitI32(n: int)
      requires Valid() && IsI32(n)
      modifies this
      ensures Valid() && prog == old(prog) + [Const(n)]
    {
      EncodeAppend(prog, Const(n), W);
      code := code + [CONST_I32];
      code := code + LeBytes(n, 4);
      prog := prog + [Const(n)];
    }

    method EmitLoadLocal(x: nat)
      requires Valid() && x < 0x1_0000
      modifies this
      ensures Valid() && prog == old(prog) + [Load(x)]
    {
      EncodeAppend(prog, Load(x), W);
      code := code + [LOAD_LOCAL];
      code := code + LeBytes(x, 2);
      prog := prog + [Load(x)];
    }

    method EmitStoreLocal(x: nat)
      requires Valid() && x < 0x1_0000
      modifies this
      ensures Valid() && prog == old(prog) + [Put(x)]
    {
      EncodeAppend(prog, Put(x), W);
      code := code + [STORE_LOCAL];
      code := code + LeBytes(x, 2);
      prog := prog + [Put(x)];
    }

    /** Emit a jump with a zero operand and return the operand's position. */
    method EmitJmpPlaceholder(j: Jump) returns (pos: nat)
      requires Valid()
      modifies this
      ensures Valid() && prog == old(prog) + [Goto(j, |old(prog)| + 1)]
      ensures pos == |old(code)| + 1
    {
      EncodeAppend(prog, Goto(j, |prog| + 1), W);
      code := code + [JumpByte(j)];
      pos := |code|;
      ZeroOperand();
      code := code + [0, 0];
      prog := prog + [Goto(j, |prog| + 1)];
    }

    /**
     Overwrite the operand at pos so that the jump goes to address target.  The
     ghost arguments name the jump and the instruction at that address.
     */
    method PatchJump(pos: nat, target: nat, ghost k: nat, ghost t: nat)
      requires Valid() && k < |prog| && t <= |prog| && prog[k].Goto?
      requires pos == Offset(prog, k, W) + 1 && target == Offset(prog, t, W)
      requires FitsSigned(target - (pos + 2), 2)
      modifies this
      ensures Valid() && prog == old(prog)[k := Goto(old(prog)[k].j, t)]
    {
      var rel := target - (pos + 2);
      EncodePatched(prog, prog[k := Goto(prog[k].j, t)], k, pos, rel, W);
      code := code[..pos] + LeBytes(rel, 2) + code[pos + 2..];
      prog := prog[k := Goto(prog[k].j, t)];
    }
  }

  lemma {:induction false} ZeroOperand()
    ensures LeBytes(0, 2) == [0, 0]
  {
    assert LeBytes(0, 1) == [0];
  }
}
