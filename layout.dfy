/** The memory layout and dispatch grid `gemm<T>` derives once the options are valid: each
    matrix row padded to the device's row alignment, the row stride passed to the kernel as a
    `cl_int`, the bytes one matrix takes, and the 2-D global and local work sizes. */
module Layout {
  import opened Machine
  import opened CmdOptions

  /** The source's assertions on the row alignment: at least one element, and a power of two by
      the `(a & (a - 1)) == 0` test. */
  predicate AlignmentOk(elementSize: nat, alignment: nat)
  {
    elementSize > 0 && alignment >= elementSize && BitAnd(alignment, alignment - 1) == 0
  }

  /** Row length in bytes rounded up to the alignment: `(n + a - 1) & ~(a - 1)` on `size_t`. */
  function RowStrideBytes(size: SizeT, elementSize: SizeT, alignment: SizeT): (r: SizeT)
    requires AlignmentOk(elementSize, alignment)
    ensures size * elementSize + alignment - 1 < SIZE_T_MOD ==>
      r % alignment == 0 && size * elementSize <= r < size * elementSize + alignment
  {
    var n := size * elementSize;
    PowerOfTwoMaskTest(alignment);
    MaskRoundsUp(n, alignment);
    BitAnd((n + alignment - 1) % SIZE_T_MOD, SIZE_MAX - (alignment - 1))
  }

  lemma MaskRoundsUp(n: nat, a: nat)
    requires IsPowerOfTwo(a) && a < SIZE_T_MOD
    ensures var r := BitAnd((n + a - 1) % SIZE_T_MOD, SIZE_MAX - (a - 1));
      n + a - 1 < SIZE_T_MOD ==> r % a == 0 && n <= r < n + a
  {
    if n + a - 1 < SIZE_T_MOD {
      var x := n + a - 1;
      assert x % SIZE_T_MOD == x;
      SizeTModIsPowerOfTwo();
      assert SIZE_MAX - (a - 1) == SIZE_T_MOD - a;
      BitAndClearsLowBits(x, SIZE_T_MOD, a);
      RoundDown(x, a);
    }
  }

  /** Row stride in elements: the least multiple of the alignment (in elements) that holds a row,
      so each row in bytes stays aligned. */
  function ElementStride(size: SizeT, elementSize: SizeT, alignment: SizeT): (stride: nat)
    requires AlignmentOk(elementSize, alignment) && alignment % elementSize == 0
    requires size * elementSize + alignment <= SIZE_T_MOD
    ensures alignment / elementSize > 0
    ensures stride % (alignment / elementSize) == 0 && size <= stride < size + alignment / elementSize
    ensures (stride * elementSize) % alignment == 0
  {
    var bytes := RowStrideBytes(size, elementSize, alignment);
    StrideFromBytes(size, elementSize, alignment, bytes);
    bytes / elementSize
  }

  lemma StrideFromBytes(size: nat, e: nat, a: nat, b: nat)
    requires e > 0 && a >= e && a % e == 0
    requires b % a == 0 && size * e <= b < size * e + a
    ensures a / e > 0
    ensures (b / e) % (a / e) == 0 && size <= b / e < size + a / e
    ensures ((b / e) * e) % a == 0
  {
    var k := a / e;
    var m := b / a;
    assert a == k * e;
    assert k > 0;
    assert b == m * a;
    assert b == (m * k) * e;
    DivModUnique(b, e, m * k, 0);
    DivModUnique(m * k, k, m, 0);
    MulCancel(size, m * k, e);
    assert size * e + a == (size + k) * e;
    MulCancel(m * k, size + k, e);
  }

  datatype Layout = Layout(stride: nat, matrixMemorySize: nat)

  /** The row stride, in elements, does not fit the kernel's `cl_int` argument. */
  datatype LayoutError = StrideNotRepresentable(reported: nat)

  /** The layout arithmetic of `gemm<T>`. The overflow guard divides the element stride by the
      element size once more before comparing it with the `cl_int` maximum, and the footprint
      `size * stride * sizeof(T)` is a `size_t` product. */
  function ComputeLayout(size: SizeT, elementSize: SizeT, alignment: SizeT): (r: Result<Layout, LayoutError>)
    requires AlignmentOk(elementSize, alignment) && alignment % elementSize == 0
    requires size * elementSize + alignment <= SIZE_T_MOD
    ensures var stride := ElementStride(size, elementSize, alignment);
      && (r.Err? <==> stride / elementSize > INT32_MAX)
      && (r.Err? ==> r.error.reported == stride / elementSize)
      && (r.Ok? ==> r.value.stride == stride && size <= r.value.stride)
      && (r.Ok? && size * stride * elementSize < SIZE_T_MOD ==>
            r.value.matrixMemorySize == size * stride * elementSize)
  {
    var stride := ElementStride(size, elementSize, alignment);
    if stride / elementSize > INT32_MAX then Err(StrideNotRepresentable(stride / elementSize))
    else Ok(Layout(stride, Footprint(size, stride, elementSize)))
  }

  /** `size * stride * sizeof(T)` evaluated in `size_t`. */
  function Footprint(size: nat, stride: nat, elementSize: nat): (bytes: nat)
    ensures bytes < SIZE_T_MOD
    ensures size * stride * elementSize < SIZE_T_MOD ==> bytes == size * stride * elementSize
  {
    (size * stride * elementSize) % SIZE_T_MOD
  }

  /** The layout with the overflow guard as evidently intended: the element stride itself,
      which is passed to the kernel as a `cl_int`, must not exceed the `cl_int` maximum. */
  function CheckedLayout(size: SizeT, elementSize: SizeT, alignment: SizeT): (r: Result<Layout, LayoutError>)
    requires AlignmentOk(elementSize, alignment) && alignment % elementSize == 0
    requires size * elementSize + alignment <= SIZE_T_MOD
    ensures var stride := ElementStride(size, elementSize, alignment);
      && (r.Err? <==> stride > INT32_MAX)
      && (r.Ok? ==> r.value.stride == stride && size <= r.value.stride <= INT32_MAX)
      && (r.Ok? && size * stride * elementSize < SIZE_T_MOD ==>
            r.value.matrixMemorySize == size * stride * elementSize)
  {
    var stride := ElementStride(size, elementSize, alignment);
    if stride > INT32_MAX then Err(StrideNotRepresentable(stride))
    else Ok(Layout(stride, Footprint(size, stride, elementSize)))
  }

  /** The guard as written is weaker than the intended one: whatever the intended guard
      accepts, it accepts too, with the same layout. */
  lemma CheckedLayoutRefines(size: SizeT, elementSize: SizeT, alignment: SizeT)
    requires AlignmentOk(elementSize, alignment) && alignment % elementSize == 0
    requires size * elementSize + alignment <= SIZE_T_MOD
    ensures CheckedLayout(size, elementSize, alignment).Ok? ==>
      ComputeLayout(size, elementSize, alignment) == CheckedLayout(size, elementSize, alignment)
  {
    DivAtMost(ElementStride(size, elementSize, alignment), elementSize);
  }

  /** The guard as written lets through element strides above the `cl_int` maximum: with 4-byte
      elements and a 4-byte alignment, a 2^31-element row passes it. */
  lemma OverflowGuardAdmitsWideStride()
    ensures AlignmentOk(4, 4) && 0x8000_0000 * 4 + 4 <= SIZE_T_MOD
    ensures var r := ComputeLayout(0x8000_0000, 4, 4);
      r.Ok? && r.value.stride > INT32_MAX
    ensures CheckedLayout(0x8000_0000, 4, 4) == Err(StrideNotRepresentable(0x8000_0000))
  {
    assert BitAnd(4, 3) == 0 by {
      assert BitAnd(1, 0) == 0;
      assert BitAnd(2, 1) == 2 * BitAnd(1, 0);
    }
    var stride := ElementStride(0x8000_0000, 4, 4);
    assert stride == 0x8000_0000;
  }

  /** After `validateParameters` accepts, with `float` or `double` sized elements, the layout
      needs no wrap-around, neither the overflow guard as written nor the intended one can
      fire, the stride fits a `cl_int`, and one matrix fits both one allocation and a third of
      global memory. */
  lemma ValidatedLayoutFits(o: Options, lim: Limits, elementSize: SizeT, alignment: SizeT)
    requires o.size > 0 ==> EstimateDefined(lim, elementSize, alignment)
    requires ValidateParameters(o, lim, elementSize, alignment).Pass?
    requires elementSize >= 4 && AlignmentOk(elementSize, alignment)
    ensures o.size * elementSize + alignment <= SIZE_T_MOD
    ensures ComputeLayout(o.size, elementSize, alignment) == CheckedLayout(o.size, elementSize, alignment)
    ensures var r := CheckedLayout(o.size, elementSize, alignment);
      && r.Ok?
      && o.size <= r.value.stride <= INT32_MAX
      && r.value.matrixMemorySize == o.size * r.value.stride * elementSize
      && r.value.matrixMemorySize <= lim.maxAllocSize
      && r.value.matrixMemorySize <= lim.globalMemSize / 3
  {
    LayoutFits(o.size, lim, elementSize, alignment);
  }

  /** The arithmetic core of `ValidatedLayoutFits`: any positive size up to the estimate lays out. */
  lemma LayoutFits(size: SizeT, lim: Limits, e: SizeT, alignment: SizeT)
    requires EstimateDefined(lim, e, alignment)
    requires 0 < size <= EstimateMaxMatrixSize(lim, e, alignment)
    requires e >= 4 && AlignmentOk(e, alignment)
    ensures size * e + alignment <= SIZE_T_MOD
    ensures ComputeLayout(size, e, alignment) == CheckedLayout(size, e, alignment)
    ensures var r := CheckedLayout(size, e, alignment);
      && r.Ok?
      && size <= r.value.stride <= INT32_MAX
      && r.value.matrixMemorySize == size * r.value.stride * e
      && r.value.matrixMemorySize <= lim.maxAllocSize
      && r.value.matrixMemorySize <= lim.globalMemSize / 3
  {
    var k := alignment / e;
    var s := FloorSqrt(Capacity(lim) / e);
    ExactDiv(alignment, e);
    assert size + k <= s;
    RowFits(size, k, e, s, Capacity(lim));
    Distribute(size, k, e);
    var stride := ElementStride(size, e, alignment);
    assert stride <= s - 1;
    DivAtMost(stride, e);
    FootprintFits(size, stride, e, s, Capacity(lim));
    CheckedLayoutRefines(size, e, alignment);
  }

  lemma Distribute(x: nat, y: nat, e: nat)
    ensures x * e + y * e == (x + y) * e
  {
  }

  lemma ExactDiv(a: nat, e: nat)
    requires e > 0 && a % e == 0
    ensures a == (a / e) * e
  {
  }

  lemma DivAtMost(x: nat, e: nat)
    requires e > 0
    ensures x / e <= x
  {
    DivBounds(x, e, x / e);
    MulMono(x / e, x / e, 1, e);
  }

  /** The arithmetic behind the layout bounds: a row plus its alignment allowance fits, and the
      square root of a quarter of the 64-bit range is below 2^31. */
  lemma RowFits(size: nat, k: nat, e: nat, s: nat, c: nat)
    requires e >= 4 && k >= 1 && size + k <= s && s * s * e <= c && c < SIZE_T_MOD
    ensures (size + k) * e <= c && s < 0x8000_0000
  {
    MulMono(size + k, s, e, e);
    MulMono(1, s, s, s);
    MulMono(s, s * s, e, e);
    if s >= 0x8000_0000 {
      MulMono(0x8000_0000, s, 0x8000_0000, s);
      MulMono(0x8000_0000 * 0x8000_0000, s * s, 4, e);
    }
  }

  lemma FootprintFits(size: nat, stride: nat, e: nat, s: nat, c: nat)
    requires size <= s && stride <= s && s * s * e <= c
    ensures size * stride * e <= c
  {
    MulMono(size, s, stride, s);
    MulMono(size * stride, s * s, e, e);
  }

  /** The 2-D dispatch grid: one work-item per M-by-N tile, grouped into work groups of
      `tile_group_M` by `tile_group_N` work-items. */
  datatype Grid = Grid(global0: nat, global1: nat, local0: nat, local1: nat)

  function DispatchGrid(o: Options): (g: Grid)
    requires o.tileSizeM > 0 && o.tileSizeN > 0
    ensures g.global0 * o.tileSizeM <= o.size < (g.global0 + 1) * o.tileSizeM
    ensures g.global1 * o.tileSizeN <= o.size < (g.global1 + 1) * o.tileSizeN
    ensures g.local0 == o.tileGroupM && g.local1 == o.tileGroupN
  {
    DivBounds(o.size, o.tileSizeM, o.size / o.tileSizeM);
    DivBounds(o.size, o.tileSizeM, o.size / o.tileSizeM + 1);
    DivBounds(o.size, o.tileSizeN, o.size / o.tileSizeN);
    DivBounds(o.size, o.tileSizeN, o.size / o.tileSizeN + 1);
    Grid(o.size / o.tileSizeM, o.size / o.tileSizeN, o.tileGroupM, o.tileGroupN)
  }

  lemma TileGridDivides(size: nat, group: nat, tile: nat, maxGroup: nat)
    requires TileValid(size, group, tile, maxGroup)
    ensures (size / tile) * tile == size && (size / tile) % group == 0
  {
    var q := size / (group * tile);
    assert size == q * (group * tile) + 0;
    assert size == (q * group) * tile;
    DivModUnique(size, tile, q * group, 0);
    DivModUnique(q * group, group, q, 0);
  }

  /** Once `validateParameters` accepts, every global size is a whole number of work groups,
      the global size times the tile covers the matrix exactly, and the work group respects
      the per-dimension and the kernel limits. */
  lemma ValidatedGridDivides(o: Options, lim: Limits, elementSize: SizeT, alignment: SizeT)
    requires o.size > 0 ==> EstimateDefined(lim, elementSize, alignment)
    requires ValidateParameters(o, lim, elementSize, alignment).Pass?
    ensures o.tileSizeM > 0 && o.tileSizeN > 0
    ensures var g := DispatchGrid(o);
      && g.local0 > 0 && g.local1 > 0
      && g.global0 % g.local0 == 0 && g.global1 % g.local1 == 0
      && g.global0 * o.tileSizeM == o.size && g.global1 * o.tileSizeN == o.size
      && g.local0 <= lim.maxWorkItemSize0 && g.local1 <= lim.maxWorkItemSize1
      && g.local0 * g.local1 <= lim.maxKernelWorkGroupSize
  {
    TileGridDivides(o.size, o.tileGroupM, o.tileSizeM, lim.maxWorkItemSize0);
    TileGridDivides(o.size, o.tileGroupN, o.tileSizeN, lim.maxWorkItemSize1);
  }

  /** A 128 by 128 problem with M tiles of 1 in groups of 16 and N tiles of 8 in groups of 1,
      on a device with 256-item limits, is accepted with a 128 by 16 global and 16 by 1 local
      grid. */
  lemma SmallTilingExample()
    ensures var o := Options(128, 10, Float, NN, false, 1, 16, 8, 1, 8);
      var lim := Limits(0x4000_0000, 0x1_0000_0000, 256, 256, 256, 256);
      && EstimateDefined(lim, 4, 64)
      && ValidateParameters(o, lim, 4, 64) == Pass
      && DispatchGrid(o) == Grid(128, 16, 16, 1)
  {
    var lim := Limits(0x4000_0000, 0x1_0000_0000, 256, 256, 256, 256);
    assert Capacity(lim) == 0x4000_0000;
    FloorSqrtUnique(0x1000_0000, 0x4000);
  }

  /** A work group of 16 does not divide a size of 100: the first failed check names it. */
  lemma IndivisibleGroupExample(lim: Limits)
    requires EstimateDefined(lim, 4, 64) && EstimateMaxMatrixSize(lim, 4, 64) >= 100
    ensures ValidateParameters(Options(100, 10, Float, NN, false, 1, 16, 1, 1, 1), lim, 4, 64)
         == Fail(NotDivisor(TileGroupM))
  {
  }
}
