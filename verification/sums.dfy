/** Arithmetic of the workloads: wrap-around is a ring homomorphism, and the sums. */
module Sums {
  import opened Machine

  const M: int := 0x1_0000_0000

  lemma {:induction false} WrapOf(x: int) returns (k: int)
    ensures Wrap(x) == x + M * k
  {
    k := -((x + 0x8000_0000) / M);
  }

  lemma {:induction false} WrapPeriodic(x: int, k: int)
    ensures Wrap(x + M * k) == Wrap(x)
  {
  }

  lemma {:induction false} WrapSame(x: int)
    ensures IsI32(x) ==> Wrap(x) == x
    ensures Wrap(Wrap(x)) == Wrap(x)
  {
  }

  lemma {:induction false} WrapAdd(x: int, y: int)
    ensures Wrap(Wrap(x) + Wrap(y)) == Wrap(x + y)
  {
    var a := WrapOf(x);
    var b := WrapOf(y);
    WrapPeriodic(x + y, a + b);
  }

  lemma {:induction false} WrapMul(x: int, y: int)
    ensures Wrap(Wrap(x) * Wrap(y)) == Wrap(x * y)
  {
    var a := WrapOf(x);
    var b := WrapOf(y);
    var c := a * y + x * b + M * (a * b);
    assert (x + M * a) * (y + M * b) == x * y + M * c by {
      assert (x + M * a) * (y + M * b) == x * y + x * (M * b) + (M * a) * y + (M * a) * (M * b);
      assert x * (M * b) == M * (x * b);
      assert (M * a) * y == M * (a * y);
      assert (M * a) * (M * b) == M * (M * (a * b));
    }
    WrapPeriodic(x * y, c);
  }

  // The sum of all cells of C = A * B.

  function A(i: int, k: int): int { (i + 1) * (k + 1) }

  function B(k: int, j: int): int { (k + 1) * (j + 1) }

  /** C[i, j], over the first m values of k. */
  function Cell(i: int, j: int, m: nat): int
  {
    if m == 0 then 0 else Cell(i, j, m - 1) + A(i, m - 1) * B(m - 1, j)
  }

  /** The first m cells of row i. */
  function Row(i: int, n: nat, m: nat): int
  {
    if m == 0 then 0 else Row(i, n, m - 1) + Cell(i, m - 1, n)
  }

  /** The first m rows. */
  function Rows(n: nat, m: nat): int
  {
    if m == 0 then 0 else Rows(n, m - 1) + Row(m - 1, n, n)
  }

  function Triangle(n: nat): int
  {
    if n == 0 then 0 else Triangle(n - 1) + n
  }

  function Squares(n: nat): int
  {
    if n == 0 then 0 else Squares(n - 1) + n * n
  }

  lemma {:induction false} CellFactors(i: int, j: int, m: nat)
    ensures Cell(i, j, m) == (i + 1) * (j + 1) * Squares(m)
  {
    if m > 0 {
      CellFactors(i, j, m - 1);
      Factor4(i + 1, m, j + 1);
      Distribute((i + 1) * (j + 1), Squares(m - 1), m * m);
    }
  }

  lemma {:induction false} Factor4(a: int, b: int, c: int)
    ensures (a * b) * (b * c) == (a * c) * (b * b)
  {
  }

  lemma {:induction false} Distribute(a: int, b: int, c: int)
    ensures a * (b + c) == a * b + a * c
  {
  }

  lemma {:induction false} RowFactors(i: int, n: nat, m: nat)
    ensures Row(i, n, m) == (i + 1) * Triangle(m) * Squares(n)
  {
    hide Squares, Cell;
    if m > 0 {
      RowFactors(i, n, m - 1);
      CellFactors(i, m - 1, n);
      assert Triangle(m) == Triangle(m - 1) + m;
      Distribute(i + 1, Triangle(m - 1), m);
      Distribute(Squares(n), (i + 1) * Triangle(m - 1), (i + 1) * m);
    }
  }

  /** The cells of the product add up to the product of three simple sums. */
  lemma {:induction false} RowsFactor(n: nat, m: nat)
    ensures Rows(n, m) == Triangle(m) * Triangle(n) * Squares(n)
  {
    if m > 0 {
      RowsFactor(n, m - 1);
      RowFactors(m - 1, n, n);
      Distribute(Triangle(n), Triangle(m - 1), m);
      Distribute(Squares(n), Triangle(m - 1) * Triangle(n), m * Triangle(n));
    }
  }

  lemma {:induction false} TriangleClosed(n: nat)
    ensures 2 * Triangle(n) == n * (n + 1)
  {
    if n > 0 {
      TriangleClosed(n - 1);
    }
  }

  lemma {:induction false} SquaresClosed(n: nat)
    ensures 6 * Squares(n) == n * (n + 1) * (2 * n + 1)
  {
    if n > 0 {
      SquaresClosed(n - 1);
      SquareStep(n, n * n);
    }
  }

  lemma {:induction false} SquareStep(n: int, q: int)
    requires q == n * n
    ensures (n - 1) * n * (2 * n - 1) + 6 * q == n * (n + 1) * (2 * n + 1)
  {
    assert (n - 1) * n == q - n;
    assert n * (n + 1) == q + n;
    Distribute(q, 2 * n, 1);
    Distribute(q, 2 * n, -1);
    Distribute(2 * n + 1, q, n);
    Distribute(2 * n - 1, q, -n);
  }

  // The nested loop with remainder and branch.

  /** The amount one inner iteration adds to the sum. */
  function Mixed(i: int, j: int): int
  {
    Rem(Wrap(Wrap(i * 3) + Wrap(j * 2)), 97) - (if j % 2 == 0 then 5 else 0)
  }

  function MixedRow(i: int, m: nat): int
  {
    if m == 0 then 0 else MixedRow(i, m - 1) + Mixed(i, m - 1)
  }

  function MixedRows(inner: nat, m: nat): int
  {
    if m == 0 then 0 else MixedRows(inner, m - 1) + MixedRow(m - 1, inner)
  }

  /** Without overflow an iteration adds (3 i + 2 j) mod 97, less 5 for even j. */
  lemma {:induction false} MixedPlain(i: nat, j: nat)
    requires IsI32(3 * i + 2 * j)
    ensures Mixed(i, j) == (3 * i + 2 * j) % 97 - (if j % 2 == 0 then 5 else 0)
  {
    WrapSame(i * 3);
    WrapSame(j * 2);
    WrapSame(i * 3 + j * 2);
    assert i * 3 + j * 2 == 3 * i + 2 * j;
  }
}
