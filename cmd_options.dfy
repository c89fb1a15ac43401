/** The GEMM command-line options and their consistency checks: the precision choice made
    by `parse`, and `validateParameters` with its helpers, which check the matrix size, the
    iteration count and the tiling against the limits of the device and of the built kernel. */
module CmdOptions {
  import opened Machine

  datatype Arithmetic = Float | Double
  /** `nn`: A and B column-major; `nt`: B is row-major (transposed). */
  datatype KernelForm = NN | NT

  /** Options that a failed check names. */
  datatype Param = Size | Iterations | TileSizeM | TileGroupM | TileSizeN | TileGroupN | TileSizeK

  /** The command-line errors the options code raises, each naming what failed. */
  datatype ConfigError =
    | BothPrecisions
    | NoPrecision
    | NotPositive(param: Param)
    | NotDivisor(param: Param)
    | TooBig(param: Param, bound: nat)
    | ProductNotDivisor(group: Param, tile: Param)
    | NegativeIterations
    | WorkGroupTooBig(bound: nat)

  /** Outcome of a check that either passes or throws. */
  datatype Outcome = Pass | Fail(error: ConfigError)

  /** Option values: the unsigned ones are `size_t`, the iteration count a signed `int`. */
  datatype Options = Options(
    size: SizeT,
    iterations: Int32,
    arithmetic: Arithmetic,
    kernel: KernelForm,
    validation: bool,
    tileSizeM: SizeT,
    tileGroupM: SizeT,
    tileSizeN: SizeT,
    tileGroupN: SizeT,
    tileSizeK: SizeT)

  /** Values the options take when the command line does not set them. */
  function DefaultOptions(): Options
  {
    Options(3968, 10, Float, NN, false, 1, 16, 128, 1, 8)
  }

  /** The device and kernel limits the checks are made against, queried once and never changed. */
  datatype Limits = Limits(
    maxAllocSize: ULong,
    globalMemSize: ULong,
    maxWorkItemSize0: SizeT,
    maxWorkItemSize1: SizeT,
    maxDeviceWorkGroupSize: SizeT,
    maxKernelWorkGroupSize: SizeT)

  /** The consistency check of `parse`: exactly one of the two precision alternatives must be
      set; the chosen one is the element type `main` instantiates `gemm` with. */
  function Parse(floatSet: bool, doubleSet: bool): (r: Result<Arithmetic, ConfigError>)
    ensures r.Ok? <==> floatSet != doubleSet
    ensures r.Ok? ==> (r.value == Float <==> floatSet) && (r.value == Double <==> doubleSet)
    ensures floatSet && doubleSet ==> r == Err(BothPrecisions)
    ensures !floatSet && !doubleSet ==> r == Err(NoPrecision)
  {
    if floatSet && doubleSet then Err(BothPrecisions)
    else if !floatSet && !doubleSet then Err(NoPrecision)
    else if floatSet then Ok(Float)
    else Ok(Double)
  }

  function ValidatePositiveness(p: Param, value: int): (r: Outcome)
    ensures r.Pass? <==> value > 0
    ensures r.Fail? ==> r.error == NotPositive(p)
  {
    if value > 0 then Pass else Fail(NotPositive(p))
  }

  /** For an unsigned `size_t` option, "positive" means "non-zero". */
  lemma UnsignedPositiveIsNonZero(p: Param, value: SizeT)
    ensures ValidatePositiveness(p, value).Pass? <==> value != 0
  {
  }

  // ---------------------------------------------------------------------------------------
  // Fail-fast chains of checks
  // ---------------------------------------------------------------------------------------

  /** One check of a chain: whether it holds, and the error raised when it does not. */
  datatype Check = Check(holds: bool, failure: ConfigError)

  predicate FailsFirstAt(cs: seq<Check>, k: nat)
  {
    k < |cs| && !cs[k].holds && forall j :: 0 <= j < k ==> cs[j].holds
  }

  /** Runs a chain of checks in order and stops at the first that does not hold. */
  function FirstFailure(cs: seq<Check>): (r: Outcome)
    ensures r.Pass? <==> forall k :: 0 <= k < |cs| ==> cs[k].holds
    ensures r.Fail? ==> exists k: nat :: FailsFirstAt(cs, k) && r.error == cs[k].failure
  {
    if cs == [] then Pass
    else if !cs[0].holds then
      assert FailsFirstAt(cs, 0);
      Fail(cs[0].failure)
    else
      var r := FirstFailure(cs[1..]);
      if r.Pass? then r
      else
        FailsFirstShift(cs, r.error);
        r
  }

  lemma FailsFirstShift(cs: seq<Check>, e: ConfigError)
    requires cs != [] && cs[0].holds
    requires exists k: nat :: FailsFirstAt(cs[1..], k) && e == cs[1..][k].failure
    ensures exists k: nat :: FailsFirstAt(cs, k) && e == cs[k].failure
  {
    var k: nat :| FailsFirstAt(cs[1..], k) && e == cs[1..][k].failure;
    assert FailsFirstAt(cs, k + 1);
  }

  lemma {:induction false} FirstFailureAppend(a: seq<Check>, b: seq<Check>)
    ensures FirstFailure(a + b) == if FirstFailure(a).Fail? then FirstFailure(a) else FirstFailure(b)
  {
    if a != [] {
      assert (a + b)[1..] == a[1..] + b;
      FirstFailureAppend(a[1..], b);
    } else {
      assert a + b == b;
    }
  }

  // ---------------------------------------------------------------------------------------
  // validateTile
  // ---------------------------------------------------------------------------------------

  /** What `validateTile` accepts, as one condition. */
  predicate TileValid(size: nat, group: nat, tile: nat, maxGroup: nat)
  {
    group > 0 && tile > 0 && size % group == 0 && size % tile == 0 && group <= maxGroup &&
    size % (group * tile) == 0
  }

  /** The checks of `validateTile`, in the order it makes them. */
  function TileChecks(size: nat, group: nat, tile: nat, maxGroup: nat, groupName: Param, tileName: Param): seq<Check>
  {
    [ Check(group > 0, NotPositive(groupName)),
      Check(tile > 0, NotPositive(tileName)),
      Check(group > 0 && size % group == 0, NotDivisor(groupName)),
      Check(tile > 0 && size % tile == 0, NotDivisor(tileName)),
      Check(group <= maxGroup, TooBig(groupName, maxGroup)),
      Check(group > 0 && tile > 0 && size % (group * tile) == 0, ProductNotDivisor(groupName, tileName)) ]
  }

  /** A divisor of a positive size is at most the size, so the `size_t` product of two divisors
      of a size whose square fits in 64 bits does not wrap. */
  lemma ProductFits(size: nat, a: nat, b: nat)
    requires 0 < size && size * size < SIZE_T_MOD
    requires a > 0 && b > 0 && size % a == 0 && size % b == 0
    ensures a * b < SIZE_T_MOD
  {
    DivisorAtMost(size, a);
    DivisorAtMost(size, b);
    MulMono(a, size, b, size);
  }

  lemma DivisorAtMost(size: nat, a: nat)
    requires 0 < size && a > 0 && size % a == 0
    ensures a <= size
  {
    if a > size {
      DivModUnique(size, a, 0, size);
    }
  }

  /** Checks one tiled dimension: both parameters positive, each dividing the matrix size, the
      group within the per-dimension work-item limit, and their product dividing the size.
      The caller has already bounded the size so that the `size_t` product cannot wrap. */
  function ValidateTile(size: SizeT, group: SizeT, tile: SizeT, maxGroup: SizeT, groupName: Param, tileName: Param): (r: Outcome)
    requires 0 < size && size * size < SIZE_T_MOD
    ensures r.Pass? <==> TileValid(size, group, tile, maxGroup)
  {
    var g := ValidatePositiveness(groupName, group);
    if g.Fail? then g
    else
      var t := ValidatePositiveness(tileName, tile);
      if t.Fail? then t
      else if size % group != 0 then Fail(NotDivisor(groupName))
      else if size % tile != 0 then Fail(NotDivisor(tileName))
      else if group > maxGroup then Fail(TooBig(groupName, maxGroup))
      else
        ProductFits(size, group, tile);
        if size % (group * tile) != 0 then Fail(ProductNotDivisor(groupName, tileName))
        else Pass
  }

  /** `validateTile` is fail-fast: its outcome is the first failed check of its chain. */
  lemma ValidateTileFailsFirst(size: SizeT, group: SizeT, tile: SizeT, maxGroup: SizeT, groupName: Param, tileName: Param)
    requires 0 < size && size * size < SIZE_T_MOD
    ensures ValidateTile(size, group, tile, maxGroup, groupName, tileName)
         == FirstFailure(TileChecks(size, group, tile, maxGroup, groupName, tileName))
  {
    var cs := TileChecks(size, group, tile, maxGroup, groupName, tileName);
    assert cs == [cs[0]] + ([cs[1]] + ([cs[2]] + ([cs[3]] + ([cs[4]] + [cs[5]]))));
    FirstFailureAppend([cs[0]], [cs[1]] + ([cs[2]] + ([cs[3]] + ([cs[4]] + [cs[5]]))));
    FirstFailureAppend([cs[1]], [cs[2]] + ([cs[3]] + ([cs[4]] + [cs[5]])));
    FirstFailureAppend([cs[2]], [cs[3]] + ([cs[4]] + [cs[5]]));
    FirstFailureAppend([cs[3]], [cs[4]] + [cs[5]]);
    FirstFailureAppend([cs[4]], [cs[5]]);
  }

  // ---------------------------------------------------------------------------------------
  // estimateMaxMatrixSize
  // ---------------------------------------------------------------------------------------

  function Min(a: nat, b: nat): nat
  {
    if a <= b then a else b
  }

  /** Bytes one matrix may take: the largest `size_t`, the largest single allocation, and a
      third of global memory (three matrices live at once), whichever is least. */
  function Capacity(lim: Limits): (c: nat)
    ensures c <= SIZE_MAX && c <= lim.maxAllocSize && c <= lim.globalMemSize / 3
  {
    Min(SIZE_MAX, Min(lim.maxAllocSize, lim.globalMemSize / 3))
  }

  /** The capacity as the source computes it, `min(SIZE_MAX, min(maxAlloc, global / 3))` in
      `double` with a real quotient by 3, is above the whole number m. */
  predicate CapacityExceeds(lim: Limits, m: nat)
  {
    SIZE_MAX > m && lim.maxAllocSize > m && lim.globalMemSize > 3 * m
  }

  /** What `estimateMaxMatrixSize` needs: the alignment is a whole number of elements (its own
      assertion), and `sqrt(capacity / elementSize) - alignment / elementSize` is above -1, so
      that converting it to `size_t` truncates toward zero. With k = alignment / elementSize
      that is k == 0, or capacity / elementSize above (k - 1)^2 in real arithmetic. At -1 or
      below the conversion has no defined result. */
  predicate EstimateDefined(lim: Limits, elementSize: nat, alignment: nat)
  {
    elementSize > 0 && alignment % elementSize == 0 &&
    var k := alignment / elementSize;
    k == 0 || CapacityExceeds(lim, (k - 1) * (k - 1) * elementSize)
  }

  /** The largest square matrix whose elements fit in the capacity, less `alignment/elementSize`
      rows as a conservative allowance for row padding. A difference in (-1, 0) truncates to 0. */
  function EstimateMaxMatrixSize(lim: Limits, elementSize: nat, alignment: nat): (r: nat)
    requires EstimateDefined(lim, elementSize, alignment)
    ensures var k := alignment / elementSize;
      && Capacity(lim) < (r + k + 1) * (r + k + 1) * elementSize
      && ((r + k) * (r + k) * elementSize <= Capacity(lim) || (r == 0 && Capacity(lim) < k * k * elementSize))
  {
    var n := FloorSqrt(Capacity(lim) / elementSize);
    var k := alignment / elementSize;
    DivBounds(Capacity(lim), elementSize, n * n);
    DivBounds(Capacity(lim), elementSize, (n + 1) * (n + 1));
    if n >= k then n - k
    else
      SquareScaleMono(n + 1, k, elementSize);
      SquareScaleMono(k, k + 1, elementSize);
      0
  }

  lemma SquareScaleMono(a: nat, b: nat, e: nat)
    requires a <= b
    ensures a * a * e <= b * b * e
  {
    MulMono(a, b, a, b);
    MulMono(a * a, b * b, e, e);
  }

  /** The band where the difference lies in (-1, 0): 40 bytes, 4-byte elements and a 16-byte
      alignment give sqrt(10) - 4, which truncates to an estimate of 0, so every positive size
      is too big. With 36 bytes the difference is exactly -1 and the estimate is undefined. */
  lemma EstimateTruncationBand()
    ensures var lim := Limits(40, 120, 1, 1, 1, 1);
      && EstimateDefined(lim, 4, 16) && EstimateMaxMatrixSize(lim, 4, 16) == 0
      && ValidateParameters(DefaultOptions().(size := 1), lim, 4, 16) == Fail(TooBig(Size, 0))
    ensures !EstimateDefined(Limits(36, 108, 1, 1, 1, 1), 4, 16)
  {
    var lim := Limits(40, 120, 1, 1, 1, 1);
    assert Capacity(lim) == 40;
    FloorSqrtUnique(10, 3);
  }

  /** For fixed limits and element size, a larger alignment never raises the estimate. */
  lemma EstimateNonIncreasingInAlignment(lim: Limits, elementSize: nat, a1: nat, a2: nat)
    requires EstimateDefined(lim, elementSize, a1) && EstimateDefined(lim, elementSize, a2)
    requires a1 <= a2
    ensures EstimateMaxMatrixSize(lim, elementSize, a2) <= EstimateMaxMatrixSize(lim, elementSize, a1)
  {
    DivMonotone(a1, a2, elementSize);
  }

  /** More memory never lowers the estimate. */
  lemma EstimateNonDecreasingInCapacity(l1: Limits, l2: Limits, elementSize: nat, alignment: nat)
    requires EstimateDefined(l1, elementSize, alignment) && EstimateDefined(l2, elementSize, alignment)
    requires Capacity(l1) <= Capacity(l2)
    ensures EstimateMaxMatrixSize(l1, elementSize, alignment) <= EstimateMaxMatrixSize(l2, elementSize, alignment)
  {
    DivMonotone(Capacity(l1), Capacity(l2), elementSize);
    FloorSqrtMonotone(Capacity(l1) / elementSize, Capacity(l2) / elementSize);
  }

  /** The estimate is not monotone in the element size: with 64 bytes of capacity and a 8-byte
      alignment, one-byte elements give 8 - 8 = 0 and two-byte elements give 5 - 4 = 1. */
  lemma EstimateNotMonotoneInElementSize()
    ensures var lim := Limits(64, 192, 1, 1, 1, 1);
      EstimateDefined(lim, 1, 8) && EstimateDefined(lim, 2, 8) &&
      EstimateMaxMatrixSize(lim, 1, 8) < EstimateMaxMatrixSize(lim, 2, 8)
  {
    var lim := Limits(64, 192, 1, 1, 1, 1);
    assert Capacity(lim) == 64;
    FloorSqrtUnique(64, 8);
    FloorSqrtUnique(32, 5);
  }

  // ---------------------------------------------------------------------------------------
  // validateParameters
  // ---------------------------------------------------------------------------------------

  /** The estimate is small enough that its square fits in a `size_t`. */
  lemma EstimateSquareFits(lim: Limits, elementSize: nat, alignment: nat, size: nat)
    requires EstimateDefined(lim, elementSize, alignment)
    requires size <= EstimateMaxMatrixSize(lim, elementSize, alignment)
    ensures size * size < SIZE_T_MOD
  {
    if size > 0 {
      var n := EstimateMaxMatrixSize(lim, elementSize, alignment) + alignment / elementSize;
      var sq := n * n;
      assert sq * elementSize <= Capacity(lim);
      MulMono(size, n, size, n);
      MulMono(sq, sq, 1, elementSize);
    }
  }

  /** What `validateParameters` accepts, as one condition. The device-wide work-group maximum
      does not appear: only the kernel's own maximum is compared against. */
  predicate ParametersValid(o: Options, lim: Limits, elementSize: nat, alignment: nat)
    requires o.size > 0 ==> EstimateDefined(lim, elementSize, alignment)
  {
    o.size > 0 && o.size <= EstimateMaxMatrixSize(lim, elementSize, alignment) &&
    o.iterations >= 0 && TilingValid(o, lim)
  }

  /** The tiling conditions: the M pair against the first work-item dimension, the N pair
      against the second, the work group against the kernel's maximum only, and the K tile. */
  predicate TilingValid(o: Options, lim: Limits)
  {
    TileValid(o.size, o.tileGroupM, o.tileSizeM, lim.maxWorkItemSize0) &&
    TileValid(o.size, o.tileGroupN, o.tileSizeN, lim.maxWorkItemSize1) &&
    o.tileGroupM * o.tileGroupN <= lim.maxKernelWorkGroupSize &&
    o.tileSizeK > 0 && o.size % o.tileSizeK == 0
  }

  /** The checks of `validateParameters`, in the order it makes them. */
  function ParameterChecks(o: Options, lim: Limits, elementSize: nat, alignment: nat): seq<Check>
    requires EstimateDefined(lim, elementSize, alignment)
  {
    var maxSize := EstimateMaxMatrixSize(lim, elementSize, alignment);
    [ Check(o.size > 0, NotPositive(Size)),
      Check(o.size <= maxSize, TooBig(Size, maxSize)),
      Check(o.iterations >= 0, NegativeIterations) ] +
    TilingChecks(o, lim)
  }

  /** Checks all options against the device: the size is positive and within the estimated
      maximum, the iteration count is not negative, the M tiling fits the first work-item
      dimension and the N tiling the second, the work group fits the kernel's maximum, and the
      K tile is positive and divides the size. A zero size is rejected before the estimate is
      computed, so only a positive size needs the estimate to be defined. */
  function ValidateParameters(o: Options, lim: Limits, elementSize: SizeT, alignment: SizeT): (r: Outcome)
    requires o.size > 0 ==> EstimateDefined(lim, elementSize, alignment)
    ensures r.Pass? <==> ParametersValid(o, lim, elementSize, alignment)
    ensures o.size == 0 ==> r == Fail(NotPositive(Size))
  {
    var s := ValidatePositiveness(Size, o.size);
    if s.Fail? then s
    else
      var maxSize := EstimateMaxMatrixSize(lim, elementSize, alignment);
      if o.size > maxSize then Fail(TooBig(Size, maxSize))
      else if o.iterations < 0 then Fail(NegativeIterations)
      else
        EstimateSquareFits(lim, elementSize, alignment, o.size);
        ValidateTiling(o, lim)
  }

  /** The tiling half of `validateParameters`, reached once the size and the iteration count
      passed: both tile pairs, the work group against the kernel's maximum, the K tile. */
  function ValidateTiling(o: Options, lim: Limits): (r: Outcome)
    requires 0 < o.size && o.size * o.size < SIZE_T_MOD
    ensures r.Pass? <==> TilingValid(o, lim)
  {
    var m := ValidateTile(o.size, o.tileGroupM, o.tileSizeM, lim.maxWorkItemSize0, TileGroupM, TileSizeM);
    if m.Fail? then m
    else
      var n := ValidateTile(o.size, o.tileGroupN, o.tileSizeN, lim.maxWorkItemSize1, TileGroupN, TileSizeN);
      if n.Fail? then n
      else
        ProductFits(o.size, o.tileGroupM, o.tileGroupN);
        if o.tileGroupM * o.tileGroupN > lim.maxKernelWorkGroupSize then
          Fail(WorkGroupTooBig(lim.maxKernelWorkGroupSize))
        else
          var k := ValidatePositiveness(TileSizeK, o.tileSizeK);
          if k.Fail? then k
          else if o.size % o.tileSizeK != 0 then Fail(NotDivisor(TileSizeK))
          else Pass
  }

  function TilingChecks(o: Options, lim: Limits): seq<Check>
  {
    TileChecks(o.size, o.tileGroupM, o.tileSizeM, lim.maxWorkItemSize0, TileGroupM, TileSizeM) +
    (TileChecks(o.size, o.tileGroupN, o.tileSizeN, lim.maxWorkItemSize1, TileGroupN, TileSizeN) +
     [ Check(o.tileGroupM * o.tileGroupN <= lim.maxKernelWorkGroupSize, WorkGroupTooBig(lim.maxKernelWorkGroupSize)),
       Check(o.tileSizeK > 0, NotPositive(TileSizeK)),
       Check(o.tileSizeK > 0 && o.size % o.tileSizeK == 0, NotDivisor(TileSizeK)) ])
  }

  lemma ValidateTilingFailsFirst(o: Options, lim: Limits)
    requires 0 < o.size && o.size * o.size < SIZE_T_MOD
    ensures ValidateTiling(o, lim) == FirstFailure(TilingChecks(o, lim))
  {
    var tm := TileChecks(o.size, o.tileGroupM, o.tileSizeM, lim.maxWorkItemSize0, TileGroupM, TileSizeM);
    var tn := TileChecks(o.size, o.tileGroupN, o.tileSizeN, lim.maxWorkItemSize1, TileGroupN, TileSizeN);
    var tail := [ Check(o.tileGroupM * o.tileGroupN <= lim.maxKernelWorkGroupSize, WorkGroupTooBig(lim.maxKernelWorkGroupSize)),
                  Check(o.tileSizeK > 0, NotPositive(TileSizeK)),
                  Check(o.tileSizeK > 0 && o.size % o.tileSizeK == 0, NotDivisor(TileSizeK)) ];
    ValidateTileFailsFirst(o.size, o.tileGroupM, o.tileSizeM, lim.maxWorkItemSize0, TileGroupM, TileSizeM);
    FirstFailureAppend(tm, tn + tail);
    if FirstFailure(tm).Fail? {
      return;
    }
    ValidateTileFailsFirst(o.size, o.tileGroupN, o.tileSizeN, lim.maxWorkItemSize1, TileGroupN, TileSizeN);
    FirstFailureAppend(tn, tail);
    if FirstFailure(tn).Fail? {
      return;
    }
    FirstFailureOfThree(tail);
  }

  lemma FirstFailureOfThree(cs: seq<Check>)
    requires |cs| == 3
    ensures FirstFailure(cs) == if !cs[0].holds then Fail(cs[0].failure)
                                else if !cs[1].holds then Fail(cs[1].failure)
                                else if !cs[2].holds then Fail(cs[2].failure)
                                else Pass
  {
    assert cs[1..][1..] == [cs[2]];
    assert cs[1..][1..][1..] == [];
  }

  /** `validateParameters` is fail-fast: its outcome is the first failed check of its chain. */
  lemma ValidateParametersFailsFirst(o: Options, lim: Limits, elementSize: SizeT, alignment: SizeT)
    requires EstimateDefined(lim, elementSize, alignment)
    ensures ValidateParameters(o, lim, elementSize, alignment) == FirstFailure(ParameterChecks(o, lim, elementSize, alignment))
  {
    var maxSize := EstimateMaxMatrixSize(lim, elementSize, alignment);
    var head := [ Check(o.size > 0, NotPositive(Size)),
                  Check(o.size <= maxSize, TooBig(Size, maxSize)),
                  Check(o.iterations >= 0, NegativeIterations) ];
    assert ParameterChecks(o, lim, elementSize, alignment) == head + TilingChecks(o, lim);
    FirstFailureAppend(head, TilingChecks(o, lim));
    FirstFailureOfThree(head);
    if o.size == 0 || o.size > maxSize || o.iterations < 0 {
      return;
    }
    EstimateSquareFits(lim, elementSize, alignment, o.size);
    ValidateTilingFailsFirst(o, lim);
  }

  /** The device-wide maximum work-group size has no influence on the outcome. */
  lemma ValidateParametersIgnoresDeviceWorkGroupSize(o: Options, lim: Limits, elementSize: SizeT, alignment: SizeT, deviceMax: SizeT)
    requires o.size > 0 ==> EstimateDefined(lim, elementSize, alignment)
    ensures o.size > 0 ==> EstimateDefined(lim.(maxDeviceWorkGroupSize := deviceMax), elementSize, alignment)
    ensures ValidateParameters(o, lim, elementSize, alignment)
         == ValidateParameters(o, lim.(maxDeviceWorkGroupSize := deviceMax), elementSize, alignment)
  {
    if o.size > 0 {
      var lim' := lim.(maxDeviceWorkGroupSize := deviceMax);
      assert Capacity(lim') == Capacity(lim);
      ValidateParametersFailsFirst(o, lim, elementSize, alignment);
      ValidateParametersFailsFirst(o, lim', elementSize, alignment);
      assert ParameterChecks(o, lim, elementSize, alignment) == ParameterChecks(o, lim', elementSize, alignment);
    }
  }

  /** The default tiling is consistent with the default size: a device whose work-item limits
      reach the default groups and whose memory holds a 3968 by 3968 matrix accepts the
      defaults. */
  lemma DefaultsAccepted(lim: Limits, elementSize: SizeT, alignment: SizeT)
    requires EstimateDefined(lim, elementSize, alignment)
    requires EstimateMaxMatrixSize(lim, elementSize, alignment) >= 3968
    requires lim.maxWorkItemSize0 >= 16 && lim.maxWorkItemSize1 >= 1 && lim.maxKernelWorkGroupSize >= 16
    ensures ValidateParameters(DefaultOptions(), lim, elementSize, alignment) == Pass
  {
    assert 3968 == 248 * 16 == 31 * 128 == 496 * 8;
  }
}
