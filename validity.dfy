/** The host-side reference check of the GEMM result (`checkValidity`). All three matrices are
    stored in lines of `ld` elements (`ldabc`, the row stride), of which the first `size` are
    the matrix and the rest padding. Element (row i, column l) of A sits at `l*ld + i`, element
    (i, j) of C at `j*ld + i`; B is read at `l*ld + j` when it is stored transposed and at
    `l + j*ld` otherwise. Numbers are exact reals: the rounding of the floating-point
    accumulation is not part of this model. */
module Validity {
  import opened Machine

  /** Offset of position `pos` within line `line` when lines are `ld` elements apart. */
  function Offset(line: nat, pos: nat, ld: nat): nat
  {
    line * ld + pos
  }

  lemma OffsetInBounds(line: nat, pos: nat, size: nat, ld: nat)
    requires line < size && pos < size <= ld
    ensures Offset(line, pos, ld) < size * ld
  {
    assert line * ld + pos < (line + 1) * ld;
    MulMono(line + 1, size, ld, ld);
  }

  /** The matrices fit the arrays: every logical element of every line lies inside them. */
  predicate Shaped(a: seq<real>, b: seq<real>, c: seq<real>, size: nat, ld: nat)
  {
    size <= ld && size * ld <= |a| && size * ld <= |b| && size * ld <= |c|
  }

  /** Where l-th term of the dot product for column j reads B: `(lstride, jstride)` is
      `(ld, 1)` for a transposed B and `(1, ld)` otherwise. */
  function BOffset(l: nat, j: nat, ld: nat, transposed: bool): nat
  {
    if transposed then Offset(l, j, ld) else Offset(j, l, ld)
  }

  /** Term l of the dot product for cell (i, j): `A[l*ld + i] * B[l*lstride + j*jstride]`. */
  function Term(a: seq<real>, b: seq<real>, size: nat, ld: nat, transposed: bool, i: nat, j: nat, l: nat): real
    requires size <= ld && size * ld <= |a| && size * ld <= |b|
    requires i < size && j < size && l < size
  {
    OffsetInBounds(l, i, size, ld);
    OffsetInBounds(l, j, size, ld);
    OffsetInBounds(j, l, size, ld);
    a[Offset(l, i, ld)] * b[BOffset(l, j, ld, transposed)]
  }

  /** The first n terms of the dot product of row i of A with column j of B, summed in the
      order the accumulation loop adds them. */
  function Dot(a: seq<real>, b: seq<real>, size: nat, ld: nat, transposed: bool, i: nat, j: nat, n: nat): real
    requires size <= ld && size * ld <= |a| && size * ld <= |b|
    requires i < size && j < size && n <= size
  {
    if n == 0 then 0.0
    else Dot(a, b, size, ld, transposed, i, j, n - 1) + Term(a, b, size, ld, transposed, i, j, n - 1)
  }

  /** The golden value of cell (i, j): `alpha` times the full dot product. */
  function Golden(a: seq<real>, b: seq<real>, size: nat, ld: nat, transposed: bool, alpha: real, i: nat, j: nat): real
    requires size <= ld && size * ld <= |a| && size * ld <= |b|
    requires i < size && j < size
  {
    alpha * Dot(a, b, size, ld, transposed, i, j, size)
  }

  function Abs(x: real): (r: real)
    ensures r >= 0.0 && (r == x || r == -x)
  {
    if x < 0.0 then -x else x
  }

  /** The tolerance `2 * alpha * max * max * 2 * size * epsilon` with the largest input value
      `max` equal to 1, as the inputs are drawn from [0, 1]. */
  function ErrorTolerance(alpha: real, size: nat, epsilon: real): (tol: real)
    ensures alpha >= 0.0 && epsilon >= 0.0 ==> tol >= 0.0
  {
    2.0 * alpha * 1.0 * 1.0 * 2.0 * (size as real) * epsilon
  }

  /** Cell (i, j) of C is within the tolerance of its golden value. */
  predicate CellOk(a: seq<real>, b: seq<real>, c: seq<real>, size: nat, ld: nat, transposed: bool,
                   alpha: real, epsilon: real, i: nat, j: nat)
    requires Shaped(a, b, c, size, ld) && i < size && j < size
  {
    OffsetInBounds(j, i, size, ld);
    Abs(c[Offset(j, i, ld)] - Golden(a, b, size, ld, transposed, alpha, i, j))
      <= ErrorTolerance(alpha, size, epsilon)
  }

  predicate AllCellsOk(a: seq<real>, b: seq<real>, c: seq<real>, size: nat, ld: nat, transposed: bool,
                       alpha: real, epsilon: real)
    requires Shaped(a, b, c, size, ld)
  {
    forall i: nat, j: nat :: i < size && j < size ==> CellOk(a, b, c, size, ld, transposed, alpha, epsilon, i, j)
  }

  /** Cell (p, q) is visited before cell (i, j): i is the outer loop, j the inner one. */
  predicate Before(p: nat, q: nat, i: nat, j: nat)
  {
    p < i || (p == i && q < j)
  }

  /** The result of the check: success, or the first failing cell with the golden and the
      calculated value reported for it. */
  datatype Verdict = Passed | Failed(i: nat, j: nat, golden: real, calculated: real)

  /** `checkValidity`: walk the cells row by row, recompute each golden value with an
      accumulator, and stop at the first cell outside the tolerance. It reads A, B and C and
      writes nothing. */
  method CheckValidity(A: array<real>, B: array<real>, C: array<real>, size: nat, ld: nat,
                       transposed: bool, alpha: real, epsilon: real) returns (v: Verdict)
    requires Shaped(A[..], B[..], C[..], size, ld)
    ensures v.Passed? <==> AllCellsOk(A[..], B[..], C[..], size, ld, transposed, alpha, epsilon)
    ensures v.Failed? ==>
      && v.i < size && v.j < size
      && !CellOk(A[..], B[..], C[..], size, ld, transposed, alpha, epsilon, v.i, v.j)
      && (forall p: nat, q: nat :: p < size && q < size && Before(p, q, v.i, v.j) ==>
            CellOk(A[..], B[..], C[..], size, ld, transposed, alpha, epsilon, p, q))
      && v.golden == Golden(A[..], B[..], size, ld, transposed, alpha, v.i, v.j)
      && Offset(v.j, v.i, ld) < C.Length && v.calculated == C[Offset(v.j, v.i, ld)]
  {
    ghost var a, b, c := A[..], B[..], C[..];
    var tol := ErrorTolerance(alpha, size, epsilon);
    var i := 0;
    while i < size
      invariant i <= size
      invariant forall p: nat, q: nat :: p < i && q < size ==>
        CellOk(a, b, c, size, ld, transposed, alpha, epsilon, p, q)
    {
      var j := 0;
      while j < size
        invariant j <= size
        invariant forall p: nat, q: nat :: p < i && q < size ==>
          CellOk(a, b, c, size, ld, transposed, alpha, epsilon, p, q)
        invariant forall q: nat :: q < j ==>
          CellOk(a, b, c, size, ld, transposed, alpha, epsilon, i, q)
      {
        var golden := Reference(A, B, size, ld, transposed, alpha, i, j);
        OffsetInBounds(j, i, size, ld);
        var absdiff := Abs(C[Offset(j, i, ld)] - golden);
        if absdiff > tol {
          assert !CellOk(a, b, c, size, ld, transposed, alpha, epsilon, i, j);
          return Failed(i, j, golden, C[Offset(j, i, ld)]);
        }
        assert CellOk(a, b, c, size, ld, transposed, alpha, epsilon, i, j);
        j := j + 1;
      }
      i := i + 1;
    }
    return Passed;
  }

  /** The golden value of one cell, accumulated term by term in the order of `l`. */
  method Reference(A: array<real>, B: array<real>, size: nat, ld: nat, transposed: bool, alpha: real,
                   i: nat, j: nat) returns (golden: real)
    requires size <= ld && size * ld <= A.Length && size * ld <= B.Length
    requires i < size && j < size
    ensures golden == Golden(A[..], B[..], size, ld, transposed, alpha, i, j)
  {
    ghost var a, b := A[..], B[..];
    var accum := 0.0;
    var l := 0;
    while l < size
      invariant l <= size
      invariant accum == Dot(a, b, size, ld, transposed, i, j, l)
    {
      TermReads(a, b, size, ld, transposed, i, j, l);
      var x, y := A[Offset(l, i, ld)], B[BOffset(l, j, ld, transposed)];
      DotNext(a, b, size, ld, transposed, i, j, l, accum, x, y);
      accum := accum + x * y;
      l := l + 1;
    }
    golden := alpha * accum;
  }

  /** Term l reads A and B inside their bounds. */
  lemma TermReads(a: seq<real>, b: seq<real>, size: nat, ld: nat, transposed: bool, i: nat, j: nat, l: nat)
    requires size <= ld && size * ld <= |a| && size * ld <= |b|
    requires i < size && j < size && l < size
    ensures Offset(l, i, ld) < |a| && BOffset(l, j, ld, transposed) < |b|
    ensures Term(a, b, size, ld, transposed, i, j, l) == a[Offset(l, i, ld)] * b[BOffset(l, j, ld, transposed)]
  {
    OffsetInBounds(l, i, size, ld);
    OffsetInBounds(l, j, size, ld);
    OffsetInBounds(j, l, size, ld);
  }

  /** Adding term l to the sum of the first l terms gives the sum of the first l + 1. */
  lemma DotNext(a: seq<real>, b: seq<real>, size: nat, ld: nat, transposed: bool, i: nat, j: nat, l: nat,
                accum: real, x: real, y: real)
    requires size <= ld && size * ld <= |a| && size * ld <= |b|
    requires i < size && j < size && l < size
    requires accum == Dot(a, b, size, ld, transposed, i, j, l)
    requires Offset(l, i, ld) < |a| && BOffset(l, j, ld, transposed) < |b|
    requires x == a[Offset(l, i, ld)] && y == b[BOffset(l, j, ld, transposed)]
    ensures accum + x * y == Dot(a, b, size, ld, transposed, i, j, l + 1)
  {
    TermReads(a, b, size, ld, transposed, i, j, l);
  }

  /** Two dot products whose terms agree one by one are equal. */
  lemma {:induction false} DotCongruent(a: seq<real>, b: seq<real>, a': seq<real>, b': seq<real>,
                                        size: nat, ld: nat, t: bool, t': bool, i: nat, j: nat, n: nat)
    requires size <= ld && size * ld <= |a| && size * ld <= |b| && size * ld <= |a'| && size * ld <= |b'|
    requires i < size && j < size && n <= size
    requires forall l :: 0 <= l < n ==> Term(a, b, size, ld, t, i, j, l) == Term(a', b', size, ld, t', i, j, l)
    ensures Dot(a, b, size, ld, t, i, j, n) == Dot(a', b', size, ld, t', i, j, n)
  {
    if n > 0 {
      DotCongruent(a, b, a', b', size, ld, t, t', i, j, n - 1);
    }
  }

  /** A C that holds exactly the golden values passes, for any non-negative alpha and epsilon. */
  lemma ExactResultAccepted(a: seq<real>, b: seq<real>, c: seq<real>, size: nat, ld: nat, transposed: bool,
                            alpha: real, epsilon: real)
    requires Shaped(a, b, c, size, ld) && alpha >= 0.0 && epsilon >= 0.0
    requires forall i: nat, j: nat :: i < size && j < size ==>
      Offset(j, i, ld) < |c| && c[Offset(j, i, ld)] == Golden(a, b, size, ld, transposed, alpha, i, j)
    ensures AllCellsOk(a, b, c, size, ld, transposed, alpha, epsilon)
  {
  }

  /** The reference reads only the logical elements of A and B: padding never affects it. */
  lemma DotReadsOnlyLogicalElements(a: seq<real>, b: seq<real>, a': seq<real>, b': seq<real>,
                                                        size: nat, ld: nat, transposed: bool, i: nat, j: nat, n: nat)
    requires size <= ld && size * ld <= |a| && size * ld <= |b| && size * ld <= |a'| && size * ld <= |b'|
    requires i < size && j < size && n <= size
    requires forall line: nat, pos: nat :: line < size && pos < size ==>
      Offset(line, pos, ld) < |a| && Offset(line, pos, ld) < |a'| && a[Offset(line, pos, ld)] == a'[Offset(line, pos, ld)]
    requires forall line: nat, pos: nat :: line < size && pos < size ==>
      Offset(line, pos, ld) < |b| && Offset(line, pos, ld) < |b'| && b[Offset(line, pos, ld)] == b'[Offset(line, pos, ld)]
    ensures Dot(a, b, size, ld, transposed, i, j, n) == Dot(a', b', size, ld, transposed, i, j, n)
  {
    forall l | 0 <= l < n
      ensures Term(a, b, size, ld, transposed, i, j, l) == Term(a', b', size, ld, transposed, i, j, l)
    {
      assert a[Offset(l, i, ld)] == a'[Offset(l, i, ld)];
      assert b[Offset(l, j, ld)] == b'[Offset(l, j, ld)];
      assert b[Offset(j, l, ld)] == b'[Offset(j, l, ld)];
    }
    DotCongruent(a, b, a', b', size, ld, transposed, transposed, i, j, n);
  }

  lemma GoldenReadsOnlyLogicalElements(a: seq<real>, b: seq<real>, a': seq<real>, b': seq<real>,
                                       size: nat, ld: nat, transposed: bool, alpha: real, i: nat, j: nat)
    requires size <= ld && size * ld <= |a| && size * ld <= |b| && size * ld <= |a'| && size * ld <= |b'|
    requires i < size && j < size
    requires forall line: nat, pos: nat :: line < size && pos < size ==>
      Offset(line, pos, ld) < |a| && Offset(line, pos, ld) < |a'| && a[Offset(line, pos, ld)] == a'[Offset(line, pos, ld)]
    requires forall line: nat, pos: nat :: line < size && pos < size ==>
      Offset(line, pos, ld) < |b| && Offset(line, pos, ld) < |b'| && b[Offset(line, pos, ld)] == b'[Offset(line, pos, ld)]
    ensures Golden(a, b, size, ld, transposed, alpha, i, j) == Golden(a', b', size, ld, transposed, alpha, i, j)
  {
    DotReadsOnlyLogicalElements(a, b, a', b', size, ld, transposed, i, j, size);
  }

  /** Reading B transposed is reading the transpose of B: if bt stores at (l, j) what b stores
      at (j, l), the `nt` reference over bt is the `nn` reference over b. */
  lemma TransposedReadMatchesTranspose(a: seq<real>, b: seq<real>, bt: seq<real>,
                                                          size: nat, ld: nat, i: nat, j: nat, n: nat)
    requires size <= ld && size * ld <= |a| && size * ld <= |b| && size * ld <= |bt|
    requires i < size && j < size && n <= size
    requires forall line: nat, pos: nat :: line < size && pos < size ==>
      Offset(line, pos, ld) < |bt| && Offset(pos, line, ld) < |b| && bt[Offset(line, pos, ld)] == b[Offset(pos, line, ld)]
    ensures Dot(a, bt, size, ld, true, i, j, n) == Dot(a, b, size, ld, false, i, j, n)
  {
    forall l | 0 <= l < n
      ensures Term(a, bt, size, ld, true, i, j, l) == Term(a, b, size, ld, false, i, j, l)
    {
      assert bt[Offset(l, j, ld)] == b[Offset(j, l, ld)];
    }
    DotCongruent(a, bt, a, b, size, ld, true, false, i, j, n);
  }

  /** A 1 by 1 example: with A = [2], B = [3], alpha 1/2 the golden value is 3; a C of 3 passes
      and a C of 4 fails at (0, 0) whenever the tolerance `2 * epsilon` is below 1. */
  lemma SingleCellExample(epsilon: real)
    requires 0.0 <= epsilon < 0.5
    ensures Golden([2.0], [3.0], 1, 1, false, 0.5, 0, 0) == 3.0
    ensures AllCellsOk([2.0], [3.0], [3.0], 1, 1, false, 0.5, epsilon)
    ensures !AllCellsOk([2.0], [3.0], [4.0], 1, 1, false, 0.5, epsilon)
  {
    assert Dot([2.0], [3.0], 1, 1, false, 0, 0, 1) == 6.0;
    assert !CellOk([2.0], [3.0], [4.0], 1, 1, false, 0.5, epsilon, 0, 0);
  }
}
