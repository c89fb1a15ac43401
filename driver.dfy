/** The host side of `gemm<T>` around the kernel: the element type chosen from the options,
    the validated plan (layout and grid), the row-by-row initialisation of the three host
    matrices, and the loop of kernel dispatches with validation of the first result. */
module Driver {
  import opened Machine
  import opened CmdOptions
  import opened Layout
  import opened Validity

  /** `sizeof(T)` of the instantiation `main` picks: `float` or `double`. */
  function ElementSize(a: Arithmetic): (e: SizeT)
    ensures e >= 4 && IsPowerOfTwo(e)
  {
    assert IsPowerOfTwo(2) && IsPowerOfTwo(4) && IsPowerOfTwo(8);
    match a
    case Float => 4
    case Double => 8
  }

  datatype Plan = Plan(elementSize: nat, layout: Layout, grid: Grid)

  datatype GemmError =
    | InvalidConfig(config: ConfigError)
    | StrideTooWide(layoutError: LayoutError)
    | ValidationFailed(verdict: Verdict)

  /** Everything `gemm<T>` decides before touching memory: validate the options, lay out the
      rows (with the stride guard as intended, which after validation agrees with the guard
      as written), and size the dispatch grid. The two assertions on the row alignment and, for
      a positive size, the definedness of the size estimate are the caller's obligations. */
  function MakePlan(o: Options, lim: Limits, alignment: SizeT): (r: Result<Plan, GemmError>)
    requires AlignmentOk(ElementSize(o.arithmetic), alignment)
    requires o.size > 0 ==> EstimateDefined(lim, ElementSize(o.arithmetic), alignment)
    ensures var e := ElementSize(o.arithmetic);
      && (r.Ok? <==> ParametersValid(o, lim, e, alignment))
      && (r.Err? ==> r.error == InvalidConfig(ValidateParameters(o, lim, e, alignment).error))
    ensures r.Ok? ==>
      && o.size > 0 && o.tileSizeM > 0 && o.tileSizeN > 0
      && alignment % ElementSize(o.arithmetic) == 0
      && o.size * ElementSize(o.arithmetic) + alignment <= SIZE_T_MOD
    ensures r.Ok? ==>
      var p := r.value;
      && p.elementSize == ElementSize(o.arithmetic)
      && p.layout.stride == ElementStride(o.size, p.elementSize, alignment)
      && p.grid == DispatchGrid(o)
      && o.size <= p.layout.stride <= INT32_MAX
      && p.layout.matrixMemorySize == o.size * p.layout.stride * p.elementSize
      && p.layout.matrixMemorySize <= lim.maxAllocSize
      && p.layout.matrixMemorySize <= lim.globalMemSize / 3
      && p.grid.local0 > 0 && p.grid.local1 > 0
      && p.grid.global0 % p.grid.local0 == 0 && p.grid.global1 % p.grid.local1 == 0
      && p.grid.global0 * o.tileSizeM == o.size && p.grid.global1 * o.tileSizeN == o.size
      && p.grid.local0 <= lim.maxWorkItemSize0 && p.grid.local1 <= lim.maxWorkItemSize1
      && p.grid.local0 * p.grid.local1 <= lim.maxKernelWorkGroupSize
  {
    var e := ElementSize(o.arithmetic);
    match ValidateParameters(o, lim, e, alignment)
    case Fail(err) => Err(InvalidConfig(err))
    case Pass =>
      ValidatedLayoutFits(o, lim, e, alignment);
      ValidatedGridDivides(o, lim, e, alignment);
      match CheckedLayout(o.size, e, alignment)
      case Err(le) => Err(StrideTooWide(le))
      case Ok(layout) => Ok(Plan(e, layout, DispatchGrid(o)))
  }

  // ---------------------------------------------------------------------------------------
  // Initialisation of the host matrices
  // ---------------------------------------------------------------------------------------

  /** Element x of a matrix laid out in lines of `stride` elements is one of the `size` by
      `size` logical elements, not padding. */
  predicate IsLogical(x: nat, size: nat, stride: nat)
    requires stride > 0
  {
    x / stride < size && x % stride < size
  }

  /** Position of logical element x in the dense row-by-row order of the initialisation loop. */
  function DenseIndex(x: nat, size: nat, stride: nat): (k: nat)
    requires stride > 0 && IsLogical(x, size, stride)
    ensures k < size * size
  {
    OffsetInBounds(x / stride, x % stride, size, size);
    Offset(x / stride, x % stride, size)
  }

  /** Matrix m after the first `done` logical elements, in dense order, received the
      corresponding values of `vals`. */
  function Filled(m: seq<real>, vals: seq<real>, size: nat, stride: nat, done: nat): (r: seq<real>)
    requires stride > 0 && |vals| == size * size
    ensures |r| == |m|
  {
    seq(|m|, x requires 0 <= x < |m| =>
      if IsLogical(x, size, stride) && DenseIndex(x, size, stride) < done
      then vals[DenseIndex(x, size, stride)] else m[x])
  }

  function Initialized(m: seq<real>, vals: seq<real>, size: nat, stride: nat): (r: seq<real>)
    requires stride > 0 && |vals| == size * size
    ensures |r| == |m|
  {
    Filled(m, vals, size, stride, size * size)
  }

  function Zeros(n: nat): (z: seq<real>)
    ensures |z| == n && forall k :: 0 <= k < n ==> z[k] == 0.0
  {
    seq(n, _ => 0.0)
  }

  /** The logical element in line r at position k is at dense index `r*size + k`. */
  lemma DenseIndexOf(r: nat, k: nat, size: nat, stride: nat)
    requires r < size && k < size <= stride
    ensures IsLogical(Offset(r, k, stride), size, stride)
    ensures DenseIndex(Offset(r, k, stride), size, stride) == Offset(r, k, size)
  {
    DivModUnique(Offset(r, k, stride), stride, r, k);
  }

  /** Writing the next value in dense order extends the filled prefix by one element. */
  lemma FilledStep(m: seq<real>, vals: seq<real>, size: nat, stride: nat, r: nat, k: nat)
    requires r < size && k < size <= stride && size * stride <= |m| && |vals| == size * size
    ensures Offset(r, k, stride) < |m| && Offset(r, k, size) < |vals|
    ensures Filled(m, vals, size, stride, Offset(r, k, size) + 1)
         == Filled(m, vals, size, stride, Offset(r, k, size))[Offset(r, k, stride) := vals[Offset(r, k, size)]]
  {
    OffsetInBounds(r, k, size, stride);
    OffsetInBounds(r, k, size, size);
    var done := Offset(r, k, size);
    var at := Offset(r, k, stride);
    DenseIndexOf(r, k, size, stride);
    var before := Filled(m, vals, size, stride, done);
    var after := Filled(m, vals, size, stride, done + 1);
    forall x | 0 <= x < |m|
      ensures after[x] == before[at := vals[done]][x]
    {
      FilledStepAt(m, vals, size, stride, r, k, x);
    }
  }

  lemma FilledStepAt(m: seq<real>, vals: seq<real>, size: nat, stride: nat, r: nat, k: nat, x: nat)
    requires r < size && k < size <= stride && |vals| == size * size && x < |m|
    requires Offset(r, k, size) < |vals| && IsLogical(Offset(r, k, stride), size, stride)
    requires DenseIndex(Offset(r, k, stride), size, stride) == Offset(r, k, size)
    ensures var done := Offset(r, k, size);
      Filled(m, vals, size, stride, done + 1)[x]
      == if x == Offset(r, k, stride) then vals[done] else Filled(m, vals, size, stride, done)[x]
  {
    if IsLogical(x, size, stride) && DenseIndex(x, size, stride) == Offset(r, k, size) {
      DenseIndexInjective(x, r, k, size, stride);
    }
  }

  /** Distinct logical elements have distinct dense indices. */
  lemma DenseIndexInjective(x: nat, r: nat, k: nat, size: nat, stride: nat)
    requires r < size && k < size <= stride && IsLogical(x, size, stride)
    requires DenseIndex(x, size, stride) == Offset(r, k, size)
    ensures x == Offset(r, k, stride)
  {
    var q, p := x / stride, x % stride;
    MulAddUnique(q, p, r, k, size);
    DivModDecompose(x, stride);
  }

  /** Once initialised, line r position k holds the value for row r, column k. */
  lemma InitializedAt(m: seq<real>, vals: seq<real>, size: nat, stride: nat, r: nat, k: nat)
    requires r < size && k < size <= stride && size * stride <= |m| && |vals| == size * size
    ensures Offset(r, k, stride) < |m| && Offset(r, k, size) < |vals|
    ensures Initialized(m, vals, size, stride)[Offset(r, k, stride)] == vals[Offset(r, k, size)]
  {
    OffsetInBounds(r, k, size, stride);
    OffsetInBounds(r, k, size, size);
    DenseIndexOf(r, k, size, stride);
  }

  /** Initialisation leaves the row padding and everything past the last line untouched. */
  lemma InitializedKeepsPadding(m: seq<real>, vals: seq<real>, size: nat, stride: nat, x: nat)
    requires 0 < size <= stride && size * stride <= |m| && |vals| == size * size && x < |m|
    requires x >= size * stride || x % stride >= size
    ensures Initialized(m, vals, size, stride)[x] == m[x]
  {
    if x >= size * stride {
      DivBounds(x, stride, size);
    }
  }

  /** The row-by-row initialisation: for each line, `size` values into A and B and `size`
      zeros into C; the padding of every line is not written. */
  method InitMatrices(A: array<real>, B: array<real>, C: array<real>, size: nat, stride: nat,
                      randA: seq<real>, randB: seq<real>)
    requires A != B && B != C && A != C
    requires 0 < size <= stride
    requires size * stride <= A.Length && size * stride <= B.Length && size * stride <= C.Length
    requires |randA| == size * size && |randB| == size * size
    modifies A, B, C
    ensures A[..] == Initialized(old(A[..]), randA, size, stride)
    ensures B[..] == Initialized(old(B[..]), randB, size, stride)
    ensures C[..] == Initialized(old(C[..]), Zeros(size * size), size, stride)
  {
    ghost var a0, b0, c0 := A[..], B[..], C[..];
    var zeros := Zeros(size * size);
    var i := 0;
    while i < size
      invariant i <= size
      invariant A[..] == Filled(a0, randA, size, stride, i * size)
      invariant B[..] == Filled(b0, randB, size, stride, i * size)
      invariant C[..] == Filled(c0, zeros, size, stride, i * size)
    {
      var k := 0;
      while k < size
        invariant k <= size
        invariant A[..] == Filled(a0, randA, size, stride, Offset(i, k, size))
        invariant B[..] == Filled(b0, randB, size, stride, Offset(i, k, size))
        invariant C[..] == Filled(c0, zeros, size, stride, Offset(i, k, size))
      {
        FilledStep(a0, randA, size, stride, i, k);
        FilledStep(b0, randB, size, stride, i, k);
        FilledStep(c0, zeros, size, stride, i, k);
        A[Offset(i, k, stride)] := randA[Offset(i, k, size)];
        B[Offset(i, k, stride)] := randB[Offset(i, k, size)];
        C[Offset(i, k, stride)] := 0.0;
        k := k + 1;
      }
      assert Offset(i, size, size) == (i + 1) * size;
      i := i + 1;
    }
  }

  /** The reference values depend only on what initialisation wrote: whatever the freshly
      allocated buffers held, the golden value of every cell is the same. */
  lemma GoldenIndependentOfAllocation(a0: seq<real>, a1: seq<real>, b0: seq<real>, b1: seq<real>,
                                      randA: seq<real>, randB: seq<real>, size: nat, stride: nat,
                                      transposed: bool, alpha: real, i: nat, j: nat)
    requires 0 < size <= stride && |randA| == size * size && |randB| == size * size
    requires size * stride <= |a0| && size * stride <= |a1| && size * stride <= |b0| && size * stride <= |b1|
    requires i < size && j < size
    ensures Golden(Initialized(a0, randA, size, stride), Initialized(b0, randB, size, stride), size, stride, transposed, alpha, i, j)
         == Golden(Initialized(a1, randA, size, stride), Initialized(b1, randB, size, stride), size, stride, transposed, alpha, i, j)
  {
    var x0, x1 := Initialized(a0, randA, size, stride), Initialized(a1, randA, size, stride);
    var y0, y1 := Initialized(b0, randB, size, stride), Initialized(b1, randB, size, stride);
    InitializedAgree(a0, a1, randA, size, stride);
    InitializedAgree(b0, b1, randB, size, stride);
    GoldenReadsOnlyLogicalElements(x0, y0, x1, y1, size, stride, transposed, alpha, i, j);
  }

  /** Two buffers initialised with the same values agree on every logical element. */
  lemma InitializedAgree(m0: seq<real>, m1: seq<real>, vals: seq<real>, size: nat, stride: nat)
    requires 0 < size <= stride && |vals| == size * size
    requires size * stride <= |m0| && size * stride <= |m1|
    ensures forall line: nat, pos: nat :: line < size && pos < size ==>
      && Offset(line, pos, stride) < |m0| && Offset(line, pos, stride) < |m1|
      && Initialized(m0, vals, size, stride)[Offset(line, pos, stride)]
         == Initialized(m1, vals, size, stride)[Offset(line, pos, stride)]
  {
    forall line: nat, pos: nat | line < size && pos < size
      ensures Offset(line, pos, stride) < |m0| && Offset(line, pos, stride) < |m1|
      ensures Initialized(m0, vals, size, stride)[Offset(line, pos, stride)]
           == Initialized(m1, vals, size, stride)[Offset(line, pos, stride)]
    {
      InitializedAt(m0, vals, size, stride, line, pos);
      InitializedAt(m1, vals, size, stride, line, pos);
    }
  }

  // ---------------------------------------------------------------------------------------
  // The dispatch loop
  // ---------------------------------------------------------------------------------------

  /** The loop of `gemm<T>` over the iterations: `o.iterations` dispatches of the kernel; after
      the first, when `o.validation` is set, the result is checked, reading B transposed exactly
      when the `nt` kernel was chosen, and a failure stops the run. C is the host view of the
      output after the first dispatch (the kernel is not part of this model); `ld` is the row
      stride. Returns the number of dispatches made and the verdict. */
  method RunIterations(o: Options, A: array<real>, B: array<real>, C: array<real>,
                       ld: nat, alpha: real, epsilon: real)
    returns (dispatches: nat, verdict: Verdict)
    requires Shaped(A[..], B[..], C[..], o.size, ld)
    ensures verdict.Failed? <==>
      o.validation && o.iterations > 0 &&
      !AllCellsOk(A[..], B[..], C[..], o.size, ld, o.kernel == NT, alpha, epsilon)
    ensures verdict.Failed? ==>
      && dispatches == 1 && verdict.i < o.size && verdict.j < o.size
      && !CellOk(A[..], B[..], C[..], o.size, ld, o.kernel == NT, alpha, epsilon, verdict.i, verdict.j)
    ensures verdict.Passed? ==> dispatches == (if o.iterations > 0 then o.iterations as nat else 0)
  {
    dispatches := 0;
    verdict := Passed;
    var i: int := 0;
    while i < o.iterations
      invariant 0 <= i <= (if o.iterations > 0 then o.iterations as int else 0)
      invariant dispatches == i
      invariant i > 0 && o.validation ==> AllCellsOk(A[..], B[..], C[..], o.size, ld, o.kernel == NT, alpha, epsilon)
    {
      dispatches := dispatches + 1;
      if i == 0 && o.validation {
        var v := CheckValidity(A, B, C, o.size, ld, o.kernel == NT, alpha, epsilon);
        if v.Failed? {
          return dispatches, v;
        }
      }
      i := i + 1;
    }
  }
}
