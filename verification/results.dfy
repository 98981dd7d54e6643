/** What the workloads return, for every parameter. */
module Results {
  import opened Bytes
  import opened Options
  import opened Machine
  import opened Assembler
  import opened Loops
  import opened Sums
  import W = Workloads

  // Running small statements.

  lemma {:induction false} ZeroRuns(x: nat, env: Env, fuel: nat)
    requires x < |env|
    ensures Exec(W.Zero(x), env, fuel) == Some(env[x := I32(0)])
  {
  }

  lemma {:induction false} NextRuns(x: nat, k: int, env: Env)
    requires x < |env| && env[x] == I32(k) && IsI32(k) && IsI32(k + 1)
    ensures Eval(W.Successor(x), env) == Some(I32(k + 1))
  {
    assert Eval(Var(x), env) == Some(I32(k)) && Eval(Lit(1), env) == Some(I32(1));
    WrapSame(k + 1);
  }

  lemma {:induction false} IncrementRuns(x: nat, k: int, env: Env, fuel: nat)
    requires x < |env| && env[x] == I32(k) && IsI32(k) && IsI32(k + 1)
    ensures Exec(W.Increment(x), env, fuel) == Some(env[x := I32(k + 1)])
  {
    NextRuns(x, k, env);
  }

  lemma {:induction false} BelowRuns(x: nat, k: int, n: int, env: Env)
    requires x < |env| && env[x] == I32(k) && IsI32(n)
    ensures Eval(W.Below(x, n), env) == Some(Bool(k < n))
  {
    assert Eval(Var(x), env) == Some(I32(k)) && Eval(Lit(n), env) == Some(I32(n));
  }

  // Single loop.

  function AtLeast0(n: int): nat { if n < 0 then 0 else n }

  lemma {:induction false} CounterRuns(n: int, i: nat, env: Env, fuel: nat)
    requires IsI32(n) && |env| == 1 && env[0] == I32(i) && i <= n && fuel >= n - i
    ensures Exec(While(W.Below(0, n), W.Increment(0)), env, fuel) == Some([I32(n)])
    decreases n - i
  {
    BelowRuns(0, i, n, env);
    if i < n {
      IncrementRuns(0, i, env, fuel - 1);
      CounterRuns(n, i + 1, env[0 := I32(i + 1)], fuel - 1);
    } else {
      assert env == [env[0]];
    }
  }

  /** The branch loop counts up to its parameter. */
  lemma {:induction false} BranchLoopReturns(n: int)
    requires IsI32(n)
    ensures Returns(W.BranchLoop(n), 1, I32(AtLeast0(n)), [I32(AtLeast0(n))])
  {
    var env: Env := Entry(1).stack[0 := I32(0)];
    var fuel := if n < 0 then 0 else n;
    ZeroRuns(0, Entry(1).stack, fuel);
    if n < 0 {
      BelowRuns(0, 0, n, env);
      assert Exec(W.BranchLoop(n).body, Entry(1).stack, fuel) == Some(env);
      assert env == [I32(0)];
    } else {
      CounterRuns(n, 0, env, fuel);
      assert Exec(W.BranchLoop(n).body, Entry(1).stack, fuel) == Some([I32(n)]);
    }
  }

  lemma {:induction false} BranchLoopEncodable(n: int, w: Width)
    requires IsI32(n)
    ensures Encodable(CompileProgram(W.BranchLoop(n)), w)
  {
    var q := W.BranchLoop(n);
    assert ScopedExpr(W.Below(0, n), 1) by {
      assert ScopedExpr(Var(0), 1) && ScopedExpr(Lit(n), 1);
    }
    IncrementScoped(0, 1);
    assert Scoped(While(W.Below(0, n), W.Increment(0)), 1);
    W.LengthBelow(0, n);
    W.IncrementCode(0, 0);
    assert |CompileExpr(Var(0))| == 1;
    assert Length(While(W.Below(0, n), W.Increment(0))) == 9;
    CompiledEncodable(q, 1, w);
  }

  lemma {:induction false} IncrementScoped(x: nat, locals: nat)
    requires x < locals
    ensures Scoped(W.Increment(x), locals) && Scoped(W.Zero(x), locals) && ScopedExpr(W.Successor(x), locals)
  {
    assert ScopedExpr(Var(x), locals) && ScopedExpr(Lit(1), locals) && ScopedExpr(Lit(0), locals);
  }

  // Matrix kernel.

  /** The locals total, i, j, k and cell_acc. */
  function Locals(total: int, i: int, j: int, k: int, acc: int): Env
  {
    [I32(Wrap(total)), I32(i), I32(j), I32(k), I32(Wrap(acc))]
  }

  lemma {:induction false} ProductRuns(x: nat, y: nat, a: int, b: int, env: Env)
    requires x < |env| && env[x] == I32(a) && IsI32(a) && IsI32(a + 1)
    requires y < |env| && env[y] == I32(b) && IsI32(b) && IsI32(b + 1)
    ensures Eval(W.Times(W.Successor(x), W.Successor(y)), env) == Some(I32(Wrap((a + 1) * (b + 1))))
  {
    NextRuns(x, a, env);
    NextRuns(y, b, env);
  }

  /** One inner iteration adds A[i,k] * B[k,j] to the cell. */
  lemma {:induction false} AccumulateRuns(total: int, i: nat, j: nat, k: nat, acc: int, fuel: nat)
    requires IsI32(i + 1) && IsI32(j + 1) && IsI32(k + 1)
    ensures Exec(W.Accumulate(), Locals(total, i, j, k, acc), fuel)
            == Some(Locals(total, i, j, k, acc + A(i, k) * B(k, j)))
  {
    var env := Locals(total, i, j, k, acc);
    var l, r := W.Times(W.Successor(1), W.Successor(3)), W.Times(W.Successor(3), W.Successor(2));
    ProductRuns(1, 3, i, k, env);
    ProductRuns(3, 2, k, j, env);
    MulRuns(l, r, A(i, k), B(k, j), env);
    AddRuns(W.Times(l, r), Var(4), A(i, k) * B(k, j), acc, env);
    assert env[4 := I32(Wrap(A(i, k) * B(k, j) + acc))] == Locals(total, i, j, k, acc + A(i, k) * B(k, j));
  }

  lemma {:induction false} MulRuns(l: Expr, r: Expr, x: int, y: int, env: Env)
    requires Eval(l, env) == Some(I32(Wrap(x))) && Eval(r, env) == Some(I32(Wrap(y)))
    ensures Eval(W.Times(l, r), env) == Some(I32(Wrap(x * y)))
  {
    WrapMul(x, y);
  }

  lemma {:induction false} AddRuns(l: Expr, r: Expr, x: int, y: int, env: Env)
    requires Eval(l, env) == Some(I32(Wrap(x))) && Eval(r, env) == Some(I32(Wrap(y)))
    ensures Eval(W.Plus(l, r), env) == Some(I32(Wrap(x + y)))
  {
    WrapAdd(x, y);
  }

  lemma {:induction false} LoopKRuns(n: int, total: int, i: nat, j: nat, k: nat, fuel: nat)
    requires IsI32(n) && i < n && j < n && k <= n && fuel >= n - k
    ensures Exec(W.LoopK(n), Locals(total, i, j, k, Cell(i, j, k)), fuel)
            == Some(Locals(total, i, j, n, Cell(i, j, n)))
    decreases n - k
  {
    var env := Locals(total, i, j, k, Cell(i, j, k));
    BelowRuns(3, k, n, env);
    if k < n {
      AccumulateRuns(total, i, j, k, Cell(i, j, k), fuel - 1);
      var mid := Locals(total, i, j, k, Cell(i, j, k + 1));
      IncrementRuns(3, k, mid, fuel - 1);
      assert mid[3 := I32(k + 1)] == Locals(total, i, j, k + 1, Cell(i, j, k + 1));
      assert Exec(Then(W.Accumulate(), W.Increment(3)), env, fuel - 1)
          == Some(Locals(total, i, j, k + 1, Cell(i, j, k + 1)));
      LoopKRuns(n, total, i, j, k + 1, fuel - 1);
    }
  }

  /** The body of the j loop adds one whole cell to the total. */
  lemma {:induction false} BodyJRuns(n: int, total: int, i: nat, j: nat, env: Env, fuel: nat)
    requires IsI32(n) && i < n && j < n && fuel >= n
    requires |env| == 5 && env[..3] == [I32(Wrap(total)), I32(i), I32(j)]
    ensures Exec(W.BodyJ(n), env, fuel)
            == Some(Locals(total + Cell(i, j, n), i, j + 1, n, Cell(i, j, n)))
  {
    ZeroRuns(3, env, fuel);
    ZeroRuns(4, env[3 := I32(0)], fuel);
    var start := Locals(total, i, j, 0, 0);
    assert env[0] == env[..3][0] && env[1] == env[..3][1] && env[2] == env[..3][2];
    assert env[3 := I32(0)][4 := I32(0)] == start;
    assert Exec(Then(W.Zero(3), W.Zero(4)), env, fuel) == Some(start);
    LoopKRuns(n, total, i, j, 0, fuel);
    var cell := Locals(total, i, j, n, Cell(i, j, n));
    assert Exec(Then(Then(W.Zero(3), W.Zero(4)), W.LoopK(n)), env, fuel) == Some(cell);
    AddRuns(Var(0), Var(4), total, Cell(i, j, n), cell);
    var added := Locals(total + Cell(i, j, n), i, j, n, Cell(i, j, n));
    assert cell[0 := I32(Wrap(total + Cell(i, j, n)))] == added;
    IncrementRuns(2, j, added, fuel);
    assert added[2 := I32(j + 1)] == Locals(total + Cell(i, j, n), i, j + 1, n, Cell(i, j, n));
    assert Exec(W.AddCell(), cell, fuel) == Some(added);
    assert Exec(Then(W.AddCell(), W.Increment(2)), cell, fuel)
        == Some(Locals(total + Cell(i, j, n), i, j + 1, n, Cell(i, j, n)));
  }

  lemma {:induction false} LoopJRuns(n: int, total: int, i: nat, j: nat, env: Env, fuel: nat) returns (end: Env)
    requires IsI32(n) && i < n && j <= n && fuel >= 2 * n - j
    requires |env| == 5 && env[..3] == [I32(Wrap(total + Row(i, n, j))), I32(i), I32(j)]
    ensures Exec(W.LoopJ(n), env, fuel) == Some(end)
    ensures |end| == 5 && end[..3] == [I32(Wrap(total + Row(i, n, n))), I32(i), I32(n)]
    decreases n - j
  {
    assert env[2] == env[..3][2];
    BelowRuns(2, j, n, env);
    end := env;
    if j < n {
      BodyJRuns(n, total + Row(i, n, j), i, j, env, fuel - 1);
      var next := Locals(total + Row(i, n, j) + Cell(i, j, n), i, j + 1, n, Cell(i, j, n));
      assert next[..3] == [I32(Wrap(total + Row(i, n, j + 1))), I32(i), I32(j + 1)];
      end := LoopJRuns(n, total, i, j + 1, next, fuel - 1);
    }
  }

  lemma {:induction false} BodyIRuns(n: int, i: nat, env: Env, fuel: nat) returns (end: Env)
    requires IsI32(n) && i < n && fuel >= 2 * n
    requires |env| == 5 && env[..2] == [I32(Wrap(Rows(n, i))), I32(i)]
    ensures Exec(W.BodyI(n), env, fuel) == Some(end)
    ensures |end| == 5 && end[..2] == [I32(Wrap(Rows(n, i + 1))), I32(i + 1)]
  {
    assert env[0] == env[..2][0] && env[1] == env[..2][1];
    ZeroRuns(2, env, fuel);
    var start := env[2 := I32(0)];
    assert start[..3] == [I32(Wrap(Rows(n, i) + Row(i, n, 0))), I32(i), I32(0)];
    var row := LoopJRuns(n, Rows(n, i), i, 0, start, fuel);
    assert row[0] == row[..3][0] && row[1] == row[..3][1];
    assert Exec(Then(W.Zero(2), W.LoopJ(n)), env, fuel) == Some(row);
    IncrementRuns(1, i, row, fuel);
    end := row[1 := I32(i + 1)];
  }

  lemma {:induction false} LoopIRuns(n: int, i: nat, env: Env, fuel: nat) returns (end: Env)
    requires IsI32(n) && i <= n && fuel >= 3 * n - i
    requires |env| == 5 && env[..2] == [I32(Wrap(Rows(n, i))), I32(i)]
    ensures Exec(W.LoopI(n), env, fuel) == Some(end)
    ensures |end| == 5 && end[0] == I32(Wrap(Rows(n, n)))
    decreases n - i
  {
    assert env[0] == env[..2][0] && env[1] == env[..2][1];
    BelowRuns(1, i, n, env);
    end := env;
    if i < n {
      var next := BodyIRuns(n, i, env, fuel - 1);
      end := LoopIRuns(n, i + 1, next, fuel - 1);
    }
  }

  /** The matrix kernel returns the sum of all cells of A * B, modulo 2^32. */
  lemma {:induction false} MatrixReturns(n: int) returns (end: Env)
    requires IsI32(n)
    ensures Returns(W.Matrix(n), 5, I32(Wrap(Rows(AtLeast0(n), AtLeast0(n)))), end)
  {
    var env, fuel := Entry(5).stack, 3 * AtLeast0(n);
    var zeroed: Env := env[0 := I32(0)][1 := I32(0)];
    ZeroRuns(0, env, fuel);
    ZeroRuns(1, env[0 := I32(0)], fuel);
    assert Exec(Then(W.Zero(0), W.Zero(1)), env, fuel) == Some(zeroed);
    end := zeroed;
    if n < 0 {
      BelowRuns(1, 0, n, zeroed);
    } else {
      assert zeroed[..2] == [I32(Wrap(Rows(n, 0))), I32(0)];
      end := LoopIRuns(n, 0, zeroed, fuel);
    }
    assert Exec(W.Matrix(n).body, env, fuel) == Some(end);
  }

  lemma {:induction false} MatrixEncodable(n: int, w: Width)
    requires IsI32(n)
    ensures Encodable(CompileProgram(W.Matrix(n)), w)
  {
    IncrementScoped(0, 5);
    IncrementScoped(1, 5);
    IncrementScoped(2, 5);
    IncrementScoped(3, 5);
    IncrementScoped(4, 5);
    BelowScoped(1, n, 5);
    BelowScoped(2, n, 5);
    BelowScoped(3, n, 5);
    assert ScopedExpr(Var(0), 5) && ScopedExpr(Var(4), 5);
    var l, r := W.Times(W.Successor(1), W.Successor(3)), W.Times(W.Successor(3), W.Successor(2));
    assert ScopedExpr(l, 5) && ScopedExpr(r, 5);
    assert ScopedExpr(W.Times(l, r), 5);
    assert Scoped(W.Accumulate(), 5);
    assert Scoped(W.LoopK(n), 5);
    assert Scoped(Then(W.Zero(3), W.Zero(4)), 5);
    assert Scoped(Then(W.AddCell(), W.Increment(2)), 5);
    assert Scoped(W.BodyJ(n), 5);
    assert Scoped(W.BodyI(n), 5);
    assert Scoped(Then(W.Zero(0), W.Zero(1)), 5);
    W.LengthI(n);
    assert Length(Then(W.Zero(0), W.Zero(1))) == 4;
    assert |CompileExpr(Var(0))| == 1;
    CompiledEncodable(W.Matrix(n), 5, w);
  }

  lemma {:induction false} BelowScoped(x: nat, n: int, locals: nat)
    requires x < locals && IsI32(n)
    ensures ScopedExpr(W.Below(x, n), locals)
  {
    assert ScopedExpr(Var(x), locals) && ScopedExpr(Lit(n), locals);
  }

  // Nested loops with remainder and branch.

  function Three(sum: int, i: int, j: int): Env { [I32(Wrap(sum)), I32(i), I32(j)] }

  lemma {:induction false} ScaledRuns(x: nat, k: int, c: int, env: Env)
    requires x < |env| && env[x] == I32(k)
    ensures Eval(W.Times(Var(x), Lit(c)), env) == Some(I32(Wrap(k * c)))
  {
    assert Eval(Var(x), env) == Some(I32(k)) && Eval(Lit(c), env) == Some(I32(c));
  }

  lemma {:induction false} RemainderRuns(sum: int, i: int, j: int, t: int, fuel: nat)
    requires t == Rem(Wrap(Wrap(i * 3) + Wrap(j * 2)), 97)
    ensures Exec(W.AddRemainder(), Three(sum, i, j), fuel) == Some(Three(sum + t, i, j))
  {
    var env := Three(sum, i, j);
    var l, r := W.Times(Var(1), Lit(3)), W.Times(Var(2), Lit(2));
    ScaledRuns(1, i, 3, env);
    ScaledRuns(2, j, 2, env);
    assert Eval(W.Plus(l, r), env) == Some(I32(Wrap(Wrap(i * 3) + Wrap(j * 2))));
    assert Eval(Lit(97), env) == Some(I32(97));
    var rem := Binop(Mod, W.Plus(l, r), Lit(97));
    assert Eval(rem, env) == Some(I32(t));
    WrapSame(t);
    AddRuns(rem, Var(0), t, sum, env);
    assert env[0 := I32(Wrap(t + sum))] == Three(sum + t, i, j);
  }

  lemma {:induction false} AdjustRuns(sum: int, i: int, j: nat, fuel: nat)
    ensures Exec(W.Adjust(), Three(sum, i, j), fuel)
            == Some(Three(sum - (if j % 2 == 0 then 5 else 0), i, j))
  {
    var env := Three(sum, i, j);
    assert Eval(Var(2), env) == Some(I32(j)) && Eval(Lit(2), env) == Some(I32(2));
    assert Eval(Binop(Mod, Var(2), Lit(2)), env) == Some(I32(j % 2));
    assert Eval(Lit(0), env) == Some(I32(0));
    assert Eval(W.JIsEven(), env) == Some(Bool(j % 2 == 0));
    if j % 2 == 0 {
      WrapAdd(sum, -5);
      WrapSame(-5);
      assert Eval(Var(0), env) == Some(I32(Wrap(sum))) && Eval(Lit(5), env) == Some(I32(5));
      assert env[0 := I32(Wrap(sum - 5))] == Three(sum - 5, i, j);
    }
  }

  lemma {:induction false} InnerBodyRuns(sum: int, i: int, j: nat, fuel: nat)
    requires IsI32(j + 1)
    ensures Exec(W.InnerBody(), Three(sum, i, j), fuel) == Some(Three(sum + Mixed(i, j), i, j + 1))
  {
    var t := Rem(Wrap(Wrap(i * 3) + Wrap(j * 2)), 97);
    RemainderRuns(sum, i, j, t, fuel);
    AdjustRuns(sum + t, i, j, fuel);
    assert Exec(Then(W.AddRemainder(), W.Adjust()), Three(sum, i, j), fuel)
        == Some(Three(sum + Mixed(i, j), i, j));
    IncrementRuns(2, j, Three(sum + Mixed(i, j), i, j), fuel);
    assert Three(sum + Mixed(i, j), i, j)[2 := I32(j + 1)] == Three(sum + Mixed(i, j), i, j + 1);
  }

  lemma {:induction false} InnerLoopRuns(inner: int, sum: int, i: int, j: nat, fuel: nat)
    requires IsI32(inner) && j <= AtLeast0(inner) && fuel >= AtLeast0(inner) - j
    ensures Exec(W.InnerLoop(inner), Three(sum + MixedRow(i, j), i, j), fuel)
            == Some(Three(sum + MixedRow(i, AtLeast0(inner)), i, AtLeast0(inner)))
    decreases AtLeast0(inner) - j
  {
    BelowRuns(2, j, inner, Three(sum + MixedRow(i, j), i, j));
    if j < inner {
      InnerBodyRuns(sum + MixedRow(i, j), i, j, fuel - 1);
      InnerLoopRuns(inner, sum, i, j + 1, fuel - 1);
    }
  }

  lemma {:induction false} OuterBodyRuns(inner: int, sum: int, i: nat, env: Env, fuel: nat)
    requires IsI32(inner) && IsI32(i + 1) && fuel >= AtLeast0(inner)
    requires |env| == 3 && env[0] == I32(Wrap(sum)) && env[1] == I32(i)
    ensures Exec(W.OuterBody(inner), env, fuel)
            == Some(Three(sum + MixedRow(i, AtLeast0(inner)), i + 1, AtLeast0(inner)))
  {
    ZeroRuns(2, env, fuel);
    assert env[2 := I32(0)] == Three(sum + MixedRow(i, 0), i, 0);
    InnerLoopRuns(inner, sum, i, 0, fuel);
    var row := Three(sum + MixedRow(i, AtLeast0(inner)), i, AtLeast0(inner));
    assert Exec(Then(W.Zero(2), W.InnerLoop(inner)), env, fuel) == Some(row);
    IncrementRuns(1, i, row, fuel);
    assert row[1 := I32(i + 1)] == Three(sum + MixedRow(i, AtLeast0(inner)), i + 1, AtLeast0(inner));
  }

  lemma {:induction false} OuterLoopRuns(outer: int, inner: int, i: nat, env: Env, fuel: nat) returns (end: Env)
    requires IsI32(outer) && IsI32(inner) && i <= AtLeast0(outer)
    requires fuel >= AtLeast0(outer) - i + AtLeast0(inner)
    requires |env| == 3 && env[0] == I32(Wrap(MixedRows(AtLeast0(inner), i))) && env[1] == I32(i)
    ensures Exec(W.OuterLoop(outer, inner), env, fuel) == Some(end)
    ensures |end| == 3 && end[0] == I32(Wrap(MixedRows(AtLeast0(inner), AtLeast0(outer))))
    decreases AtLeast0(outer) - i
  {
    hide Wrap, MixedRow, Eval;
    BelowRuns(1, i, outer, env);
    end := env;
    if i < outer {
      var m := AtLeast0(inner);
      OuterBodyRuns(inner, MixedRows(m, i), i, env, fuel - 1);
      var next := Three(MixedRows(m, i + 1), i + 1, m);
      assert Exec(W.OuterBody(inner), env, fuel - 1) == Some(next);
      end := OuterLoopRuns(outer, inner, i + 1, next, fuel - 1);
    }
  }

  /** The mixed workload returns the sum its comments describe, modulo 2^32. */
  lemma {:induction false} MixedReturns(outer: int, inner: int) returns (end: Env)
    requires IsI32(outer) && IsI32(inner)
    ensures Returns(W.MixedLoops(outer, inner), 3,
                    I32(Wrap(MixedRows(AtLeast0(inner), AtLeast0(outer)))), end)
  {
    var env, fuel := Entry(3).stack, AtLeast0(outer) + AtLeast0(inner);
    var zeroed: Env := env[0 := I32(0)][1 := I32(0)];
    ZeroRuns(0, env, fuel);
    ZeroRuns(1, env[0 := I32(0)], fuel);
    assert Exec(Then(W.Zero(0), W.Zero(1)), env, fuel) == Some(zeroed);
    end := OuterLoopRuns(outer, inner, 0, zeroed, fuel);
    assert Exec(W.MixedLoops(outer, inner).body, env, fuel) == Some(end);
  }

  lemma {:induction false} MixedEncodable(outer: int, inner: int, w: Width)
    requires IsI32(outer) && IsI32(inner)
    ensures Encodable(CompileProgram(W.MixedLoops(outer, inner)), w)
  {
    IncrementScoped(0, 3);
    IncrementScoped(1, 3);
    IncrementScoped(2, 3);
    BelowScoped(1, outer, 3);
    BelowScoped(2, inner, 3);
    InnerScoped();
    assert Scoped(W.InnerLoop(inner), 3);
    assert Scoped(W.OuterBody(inner), 3);
    assert Scoped(Then(W.Zero(0), W.Zero(1)), 3);
    W.LengthOuter(outer, inner);
    assert Length(Then(W.Zero(0), W.Zero(1))) == 4;
    assert |CompileExpr(Var(0))| == 1;
    CompiledEncodable(W.MixedLoops(outer, inner), 3, w);
  }

  lemma {:induction false} InnerScoped()
    ensures Scoped(W.InnerBody(), 3)
  {
    assert ScopedExpr(Var(0), 3) && ScopedExpr(Var(1), 3) && ScopedExpr(Var(2), 3);
    assert ScopedExpr(Lit(0), 3) && ScopedExpr(Lit(2), 3) && ScopedExpr(Lit(3), 3);
    assert ScopedExpr(Lit(5), 3) && ScopedExpr(Lit(97), 3);
    var l, r := W.Times(Var(1), Lit(3)), W.Times(Var(2), Lit(2));
    assert ScopedExpr(l, 3) && ScopedExpr(r, 3);
    assert ScopedExpr(Binop(Mod, W.Plus(l, r), Lit(97)), 3);
    assert Scoped(W.AddRemainder(), 3);
    assert ScopedExpr(Binop(Mod, Var(2), Lit(2)), 3);
    assert Scoped(W.Adjust(), 3);
    IncrementScoped(2, 3);
  }

  // Straight-line arithmetic.

  lemma {:induction false} TermsRun(repeat: nat)
    ensures Eval(W.Terms(repeat), []) == Some(I32(Wrap(if repeat <= 1 then 9 else 9 * repeat)))
  {
    TermRuns();
    if repeat > 1 {
      TermsRun(repeat - 1);
      WrapSame(9);
      AddRuns(W.Terms(repeat - 1), W.Term(), 9 * (repeat - 1), 9, []);
    }
  }

  lemma {:induction false} TermRuns()
    ensures Eval(W.Term(), []) == Some(I32(9))
  {
    assert Eval(Lit(1), []) == Some(I32(1)) && Eval(Lit(2), []) == Some(I32(2));
    assert Eval(W.Plus(Lit(1), Lit(2)), []) == Some(I32(3));
    assert Eval(Lit(3), []) == Some(I32(3));
  }

  /** The straight-line workload returns nine for each repetition, and runs at least once. */
  lemma {:induction false} ArithmeticReturns(repeat: nat)
    ensures Returns(W.Arithmetic(repeat), 0, I32(Wrap(if repeat <= 1 then 9 else 9 * repeat)), [])
  {
    TermsRun(repeat);
    assert Exec(W.Arithmetic(repeat).body, Entry(0).stack, 0) == Some(Entry(0).stack);
    assert Entry(0).stack == [];
  }

  // The same results on bytes.

  /** On two-byte or four-byte jumps alike, encoding the matrix kernel keeps its result. */
  lemma {:induction false} MatrixOnBytes(n: int, w: Width)
    requires IsI32(n)
    ensures Encodable(CompileProgram(W.Matrix(n)), w)
    ensures Yields(Encode(CompileProgram(W.Matrix(n)), w), w, 5, I32(Wrap(Rows(AtLeast0(n), AtLeast0(n)))))
  {
    MatrixEncodable(n, w);
    var end := MatrixReturns(n);
    BytesReturn(W.Matrix(n), 5, w, I32(Wrap(Rows(AtLeast0(n), AtLeast0(n)))), end);
  }

  lemma {:induction false} MixedOnBytes(outer: int, inner: int, w: Width)
    requires IsI32(outer) && IsI32(inner)
    ensures Encodable(CompileProgram(W.MixedLoops(outer, inner)), w)
    ensures Yields(Encode(CompileProgram(W.MixedLoops(outer, inner)), w), w, 3, I32(Wrap(MixedRows(AtLeast0(inner), AtLeast0(outer)))))
  {
    MixedEncodable(outer, inner, w);
    var end := MixedReturns(outer, inner);
    BytesReturn(W.MixedLoops(outer, inner), 3, w, I32(Wrap(MixedRows(AtLeast0(inner), AtLeast0(outer)))), end);
  }

  lemma {:induction false} BranchLoopOnBytes(n: int, w: Width)
    requires IsI32(n)
    ensures Encodable(CompileProgram(W.BranchLoop(n)), w)
    ensures Yields(Encode(CompileProgram(W.BranchLoop(n)), w), w, 1, I32(AtLeast0(n)))
  {
    BranchLoopEncodable(n, w);
    BranchLoopReturns(n);
    BytesReturn(W.BranchLoop(n), 1, w, I32(AtLeast0(n)), [I32(AtLeast0(n))]);
  }

  lemma {:induction false} ArithmeticEncodable(repeat: nat, w: Width)
    ensures Encodable(CompileProgram(W.Arithmetic(repeat)), w)
  {
    var p, code := CompileProgram(W.Arithmetic(repeat)), CompileExpr(W.Terms(repeat));
    TermsScoped(repeat);
    ExprPlaced(W.Terms(repeat), 0, 0);
    ExprPlaced(W.Terms(repeat), 1, 0);
    assert p == code + [Ret];
    forall k | 0 <= k < |p|
      ensures !p[k].Goto? && Placed(p[k], 0, 0, 0)
    {
      if k < |code| {
        assert Placed(code[k], 0, 0, 0) && Placed(code[k], 1, 1, 0);
      }
    }
  }

  lemma {:induction false} TermsScoped(repeat: nat)
    ensures ScopedExpr(W.Terms(repeat), 0)
  {
    assert ScopedExpr(Lit(1), 0) && ScopedExpr(Lit(2), 0) && ScopedExpr(Lit(3), 0);
    assert ScopedExpr(W.Plus(Lit(1), Lit(2)), 0);
    assert ScopedExpr(W.Term(), 0);
    if repeat > 1 {
      TermsScoped(repeat - 1);
    }
  }

  lemma {:induction false} ArithmeticOnBytes(repeat: nat, w: Width)
    ensures Encodable(CompileProgram(W.Arithmetic(repeat)), w)
    ensures Yields(Encode(CompileProgram(W.Arithmetic(repeat)), w), w, 0, I32(Wrap(if repeat <= 1 then 9 else 9 * repeat)))
  {
    ArithmeticEncodable(repeat, w);
    ArithmeticReturns(repeat);
    BytesReturn(W.Arithmetic(repeat), 0, w, I32(Wrap(if repeat <= 1 then 9 else 9 * repeat)), []);
  }
}
