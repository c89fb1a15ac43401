# GEMM sample: options, layout and validation in Dafny

This project models the host side of the OpenCL GEMM sample, which computes C = alpha * A * B +
beta * C on square matrices. A kernel in `gemm_nn` or `gemm_nt` form runs on the device and the
host times it. The model covers:

- **the command-line options** (`CmdParserGEMM`). `parse` insists on exactly one precision.
  `validateParameters` checks the options against the device and kernel limits.
  - The size must be positive and within an estimate derived from memory
    (`estimateMaxMatrixSize`).
  - The iteration count must not be negative.
  - Each tiled dimension must be consistent with the size and with the work-item limits
    (`validateTile`).
  - The work group must fit the kernel's maximum, and the K tile must divide the size.

  Every check is fail-fast. The model proves that the error raised is the first failed check of
  an ordered chain.
- **the layout `gemm<T>` computes**:
  - the row stride rounded up to the device's row alignment with the `size_t` bit mask;
  - the element stride;
  - the guard on the stride, which is passed to the kernel as a `cl_int`;
  - the bytes of one matrix;
  - the 2-D global and local dispatch grid.
- **the initialisation loop**, which fills the logical part of each padded line of A and B with
  the given values and of C with zeros. It is modelled on arrays.
- **`checkValidity`**, which walks the cells, recomputes each golden value by an explicit
  accumulation loop and stops at the first cell outside the tolerance. It is modelled on arrays
  of reals.
- **the iteration loop**, which dispatches the kernel `iterations` times and validates after the
  first dispatch only.

The modules follow the sources:

| module | file | models |
|---|---|---|
| `Machine` | `machine.dfy` | `size_t`, `cl_int` and the bit arithmetic |
| `CmdOptions` | `cmd_options.dfy` | `cmdoptions.hpp`, `cmdoptions.cpp` |
| `Layout` | `layout.dfy` | layout and grid arithmetic of `gemm.cpp` |
| `Validity` | `validity.dfy` | `checkValidity` |
| `Driver` | `driver.dfy` | plan, initialisation, iteration loop and type dispatch of `gemm.cpp` |

Three behaviours of the code are worth stating on their own:

- The work group is compared only with the kernel's maximum work-group size. The device's
  maximum is queried and combined into a minimum that is never used (cmdoptions.cpp:281-290;
  `CmdOptions.ValidateParametersIgnoresDeviceWorkGroupSize`).
- The memory capacity includes `SIZE_MAX` in the minimum (cmdoptions.cpp:194-199).
- The size estimate is not monotone in the element size: a larger element can give a larger
  estimate, because the alignment allowance is counted in elements
  (`CmdOptions.EstimateNotMonotoneInElementSize`).

## Model

| member | source | states |
|---|---|---|
| CmdOptions.Parse | GEMM/cmdoptions.cpp:150-164 | accepted iff exactly one of float/double is set, and the result is the one set; both set is `BothPrecisions`, neither is `NoPrecision` |
| CmdOptions.ValidatePositiveness | GEMM/cmdoptions.hpp:69-76 | passes iff the value is > 0, otherwise fails naming the parameter |
| CmdOptions.UnsignedPositiveIsNonZero | GEMM/cmdoptions.hpp:34-53 | for the unsigned `size_t` options "positive" is exactly "non-zero" |
| CmdOptions.FirstFailure | GEMM/cmdoptions.cpp:257-306 | a fail-fast chain passes iff every check holds; when it fails, the error is that of a failed check all of whose predecessors hold |
| CmdOptions.FirstFailureAppend | GEMM/cmdoptions.cpp:257-306 | running two chains in sequence is running their concatenation |
| CmdOptions.ProductFits | GEMM/cmdoptions.cpp:237-240 | the `size_t` product of two divisors of the size cannot wrap once the size's square fits in 64 bits |
| CmdOptions.ValidateTile | GEMM/cmdoptions.cpp:213-247 | passes iff group and tile are positive, each divides the size, the group is within its work-item limit, and group*tile divides the size |
| CmdOptions.ValidateTileFailsFirst | GEMM/cmdoptions.cpp:219-246 | the error raised is the first failed check, in the source's order: positivity, divisibility, bound, product |
| CmdOptions.Capacity | GEMM/cmdoptions.cpp:194-198 | capacity is at most `SIZE_MAX`, the maximum allocation and a third of global memory |
| CmdOptions.EstimateMaxMatrixSize | GEMM/cmdoptions.cpp:168-210 | with k = alignment/e: estimate plus k is the largest n with n*n*e <= capacity, or, when that n is below k (a difference in (-1, 0)), the estimate truncates to 0 |
| CmdOptions.EstimateTruncationBand | GEMM/cmdoptions.cpp:194-209 | 40 bytes, 4-byte elements, 16-byte alignment give sqrt(10) - 4, an estimate of 0, and size 1 fails `TooBig(Size, 0)`; at exactly -1 (36 bytes) the estimate is undefined |
| CmdOptions.EstimateNonIncreasingInAlignment | GEMM/cmdoptions.cpp:201-205 | a larger alignment never raises the estimate |
| CmdOptions.EstimateNonDecreasingInCapacity | GEMM/cmdoptions.cpp:194-199 | more memory never lowers the estimate |
| CmdOptions.EstimateNotMonotoneInElementSize | GEMM/cmdoptions.cpp:194-205 | with 64 bytes and an 8-byte alignment, 1-byte elements give 0 and 2-byte elements give 1 |
| CmdOptions.EstimateSquareFits | GEMM/cmdoptions.cpp:259-265 | any size within the estimate has a square that fits in `size_t` |
| CmdOptions.ValidateParameters | GEMM/cmdoptions.cpp:250-307 | passes iff size > 0, size <= estimate, iterations >= 0 and the tiling conditions hold; a zero size fails `NotPositive(Size)` before the estimate is needed |
| CmdOptions.ValidateTiling | GEMM/cmdoptions.cpp:272-306 | passes iff M tiles fit work-item dimension 0, N tiles dimension 1, groupM*groupN <= kernel maximum, and K tile > 0 divides the size |
| CmdOptions.ValidateTilingFailsFirst | GEMM/cmdoptions.cpp:275-306 | the tiling error is the first failed check of the M tile, N tile, work group, K tile chain |
| CmdOptions.ValidateParametersFailsFirst | GEMM/cmdoptions.cpp:257-306 | the error of `validateParameters` is the first failed check of its whole ordered chain |
| CmdOptions.ValidateParametersIgnoresDeviceWorkGroupSize | GEMM/cmdoptions.cpp:281-299 | changing the device's maximum work-group size never changes the outcome |
| CmdOptions.DefaultsAccepted | GEMM/cmdoptions.cpp:35-133 | the default options (3968, tiles 1/16, 128/1, 8) pass on any device that holds a 3968-square matrix and allows 16 work-items |
| Machine.BitAnd | GEMM/gemm.cpp:114 | C's `&` on unsigned values, bit by bit; the result is at most either operand (its other properties are the lemmas below) |
| Machine.BitAndAllOnes | GEMM/gemm.cpp:127 | masking x with m - 1, for a power of two m, keeps any x below m |
| Machine.PowerOfTwoMaskTest | GEMM/gemm.cpp:113-114 | for a > 0, `(a & (a-1)) == 0` iff a is a power of two |
| Machine.BitAndClearsLowBits | GEMM/gemm.cpp:127 | masking with `~(a-1)` in a 64-bit word rounds down to a multiple of the power of two a |
| Machine.FloorSqrt | GEMM/cmdoptions.cpp:194-199 | r*r <= n < (r+1)*(r+1) |
| Machine.FloorSqrtMonotone | GEMM/cmdoptions.cpp:194-199 | the square root never decreases as its argument grows |
| Layout.RowStrideBytes | GEMM/gemm.cpp:127 | without wrap, the byte stride is a multiple of the alignment in [size*e, size*e + alignment) |
| Layout.ElementStride | GEMM/gemm.cpp:127-131 | the element stride is a multiple of alignment/e in [size, size + alignment/e), and its bytes are aligned |
| Layout.ComputeLayout | GEMM/gemm.cpp:127-142 | as written: fails iff stride/e > INT_MAX, reporting stride/e; otherwise the stride is at least size and the footprint is size*stride*e |
| Layout.Footprint | GEMM/gemm.cpp:142 | the `size_t` product size*stride*e is below 2^64, and equals the exact product when that is below 2^64 |
| Layout.CheckedLayout | GEMM/gemm.cpp:133-140 | intended guard: fails iff the element stride > INT_MAX; otherwise size <= stride <= INT_MAX and the footprint is size*stride*e |
| Layout.CheckedLayoutRefines | GEMM/gemm.cpp:133-140 | whatever the intended guard accepts, the guard as written accepts with the same layout |
| Layout.OverflowGuardAdmitsWideStride | GEMM/gemm.cpp:133-140 | size 2^31, 4-byte elements and alignment: the guard as written accepts a stride > INT_MAX, the intended one rejects it |
| Layout.ValidatedLayoutFits | GEMM/gemm.cpp:118-142 | after validation (e >= 4) the layout needs no wrap, both guards agree and pass, size <= stride <= INT_MAX, and the footprint fits one allocation and a third of global memory |
| Layout.DispatchGrid | GEMM/gemm.cpp:256-264 | global sizes are the floor quotients size/tile_size_M and size/tile_size_N, local sizes are tile_group_M and tile_group_N |
| Layout.TileGridDivides | GEMM/cmdoptions.cpp:237-246 | a valid tile pair gives a global size that times the tile is the size and that the group divides |
| Layout.ValidatedGridDivides | GEMM/gemm.cpp:256-264 | after validation each global size is a whole number of non-empty work groups covering the matrix, within the work-item and kernel limits |
| Layout.SmallTilingExample | GEMM/gemm.cpp:256-264 | a 128 by 128 problem with M tile 1 in groups of 16 and N tile 8 in groups of 1 passes and gets a 128x16 global, 16x1 local grid |
| Layout.IndivisibleGroupExample | GEMM/cmdoptions.cpp:222-225 | a group of 16 with size 100 fails with `NotDivisor(TileGroupM)` |
| Validity.OffsetInBounds | GEMM/gemm.cpp:69-74 | every logical index `line*ld + pos` lies inside a size-by-ld buffer |
| Validity.ErrorTolerance | GEMM/gemm.cpp:59 | the tolerance is non-negative for non-negative alpha and epsilon |
| Validity.Reference | GEMM/gemm.cpp:66-72 | the accumulation loop returns alpha times the dot product of row i of A and column j of B |
| Validity.CheckValidity | GEMM/gemm.cpp:39-91 | returns Passed iff every cell is within tolerance; on Failed, the cell is out of tolerance, every earlier cell in loop order is within it, and the golden and calculated values are reported |
| Validity.ExactResultAccepted | GEMM/gemm.cpp:59-75 | a C holding exactly the golden values passes |
| Validity.DotReadsOnlyLogicalElements | GEMM/gemm.cpp:69 | the dot product depends only on the logical elements of A and B, never on row padding |
| Validity.GoldenReadsOnlyLogicalElements | GEMM/gemm.cpp:66-72 | the golden value depends only on the logical elements of A and B |
| Validity.TransposedReadMatchesTranspose | GEMM/gemm.cpp:52-54 | reading B with the transposed strides is reading the transpose of B with the plain strides |
| Validity.SingleCellExample | GEMM/gemm.cpp:59-75 | for a 1x1 problem the golden value is 3, C = 3 passes and C = 4 fails |
| Driver.ElementSize | GEMM/gemm.cpp:412-419 | the element size of either instantiation is a power of two of at least 4 bytes |
| Driver.MakePlan | GEMM/gemm.cpp:110-142 | succeeds iff the options are valid, otherwise fails with the validation error; on success: the element size of the chosen type, the alignment-rounded element stride with size <= stride <= INT_MAX, the exact footprint within one allocation and a third of global memory, and the dispatch grid of the options (global size/tile, local tile groups), whole work groups covering the matrix within the work-item and kernel limits |
| Driver.DenseIndexInjective | GEMM/gemm.cpp:165-179 | distinct logical elements read distinct positions of the value sequence |
| Driver.InitializedAt | GEMM/gemm.cpp:165-179 | after initialisation, line r position k holds `vals[r*size + k]` |
| Driver.InitializedKeepsPadding | GEMM/gemm.cpp:165-179 | initialisation leaves the row padding and everything past the last line untouched |
| Driver.InitMatrices | GEMM/gemm.cpp:165-179 | A and B become their initialised images with the given values, C with zeros |
| Driver.GoldenIndependentOfAllocation | GEMM/gemm.cpp:165-179 | the golden values after initialisation do not depend on the contents of the fresh allocations |
| Driver.RunIterations | GEMM/gemm.cpp:278-361 | with the options' iteration count and validation flag, and B read transposed exactly for the `nt` kernel: fails iff validation is on, at least one iteration runs and C is not within tolerance, after exactly one dispatch; otherwise dispatches max(iterations, 0) times |

## Left out

- OpenCL device, context, program and kernel handling are left out. This covers the device
  queries, buffer creation, mapping, unmapping and `clFinish`. The queried values enter as a
  `Limits` value, and the row alignment as a parameter.
- The kernels (`gemm.cl`) are not part of this model. `RunIterations` receives C as it is mapped
  after the first dispatch.
- Timing, the flop count and the GFLOPS report are left out, because they are output only.
- Console output and the error messages' text are left out. Each error is a datatype value that
  names the parameter and the bound.
- `fill_rand_uniform_01` is not part of this model. The random values enter as `randA` and
  `randB`, and their [0, 1] range is not enforced.
- `aligned_malloc` and the alignment of the host pointers are left out. Fresh allocations are
  arbitrary array contents.
- `beta` is left out because `checkValidity` never reads it.
- Floating point is modelled with exact reals:
  - `Validity.CheckValidity` computes the golden value without rounding.
  - `epsilon` is a parameter.
  - The `double` square root in the estimate is `Machine.FloorSqrt` of the integer quotient.
  - `double(SIZE_MAX)` rounding to 2^64 is not modelled.
  - A NaN in C passes the check in the source, since `absdiff > error_tol` is false for NaN
    (gemm.cpp:75). Reals have no NaN, so `Validity.CellOk` cannot express this.
- CmdOptions.EstimateMaxMatrixSize: it requires `sqrt(capacity/e) - alignment/e` to be above
  -1. The conversion to `size_t` truncates a difference in (-1, 0) to 0, which the model does.
  At -1 or below the conversion has no defined result. `CmdOptions.ValidateParameters` needs
  this only for a positive size, because a zero size fails first (cmdoptions.cpp:257).
- CmdOptions.ValidateTile: it requires size*size < 2^64. Its only caller guarantees this after
  the size check (`CmdOptions.EstimateSquareFits`).
- Layout.ComputeLayout: it has three preconditions.
  - The alignment is at least one element and a power of two. These are the assertions of
    `gemm<T>` (gemm.cpp:113-114).
  - The alignment is a whole number of elements. This is asserted in `estimateMaxMatrixSize`
    (cmdoptions.cpp:201).
  - size*e + alignment fits in `size_t`. Nothing in the source asserts this. It keeps the
    rounded stride exact, and `Layout.ValidatedLayoutFits` proves it holds after validation.
- Driver.MakePlan: it uses the corrected stride guard `Layout.CheckedLayout`. After validation
  both guards agree (`Layout.ValidatedLayoutFits`).
- The `CmdParserCommon` plumbing, help text, platform and device selection, the build-options
  string and the exception routing of `main` are left out.
- The `yuv_utils` and the other samples of the repository are not part of this model.

## Findings

| source | as written | input that shows it | evidently intended | confidence | as-written member | corrected member |
|---|---|---|---|---|---|---|
| GEMM/gemm.cpp:133 | `stride` is already in elements after line 130, yet the guard divides it by `sizeof(T)` again before comparing with the `cl_int` maximum | size 2^31, `float` elements, 4-byte row alignment: the stride is 2^31, the guard checks 2^29 and passes, and the cast at line 223 overflows | compare the element stride itself with the `cl_int` maximum | medium, not executed; `validateParameters` keeps `float`/`double` sizes below this point | Layout.OverflowGuardAdmitsWideStride | Layout.CheckedLayout |
