# Row convolution of vigra's fast filters, in Dafny

This project models the row pass of vigra's AVX separable filter,
`AvxConvolveLine<SYMMETRY, runtime_size>::exec_x`, and the symmetry combiner
`AddBySymmetry` it is built on. It proves three things about the model:

- the five-loop schedule of the row pass writes every output exactly once, in
  increasing order;
- it reads and writes only inside `[0, size)`;
- every output equals one unified per-index formula, which is linear in the line.

The row pass takes a line `in[0..size)`, a kernel of `radius + 1` taps and a symmetry
kind. It produces

    out[x] = kernel[0]*in[x] + sum_{k=1..radius} kernel[k] * combine(in[right(x,k)], in[left(x,k)])

Here `combine` adds for even kernels and subtracts for odd ones. `left` and `right`
mirror the index at the two ends of the line without repeating the edge sample.

The per-index formula is not written as one loop. The code computes the same value in
five consecutive loops that share one counter `x`:

1. a scalar left-border loop;
2. a loop over 32-wide blocks of four 8-lane registers;
3. a loop over 8-wide blocks of one register;
4. a scalar interior loop;
5. a scalar right-border loop.

The modules follow that structure:

- `Symmetry` (`symmetry.dfy`): the kernel symmetry kinds and the scalar combiner.
- `Avx` (`avx.dfy`): an `__m256` register is a sequence of eight real lanes, and the
  intrinsics the filter uses act lane by lane. The vector combiner is here too. Loads
  and stores require their position to lie inside the line.
- `RowReference` (`row_reference.dfy`): the reference accumulator `Acc` and the
  reference output `RefAt`, stated through the mirror `Reflect`. The source's `Left`
  and `Right` offsets are proved equal to that mirror. The reference is also proved
  equal to an independent two-sided form: a correlation with the full kernel
  `kernel[-r..r]`, in which `kernel[-k]` is rebuilt by symmetry, over the mirror-padded
  line. The reference is proved linear in the line as well.
- `AvxConvolveLine` (`convolve_line.dfy`): `exec_x` over `array<real>`.
  - Each of the five loops is one method on the shared counter `x`.
  - The per-output sums and the register blocks are methods with their own loops over
    the taps.
  - A ghost `trace` records every output index that is stored, lane by lane for the
    vector stores; `WrittenInOrder(trace, size)` says it is exactly `0, 1, ..., size-1`.
  - `ExecX` is proved against `RefAt`.
- `ImpulseTest` (`impulse_test.dfy`): the `testXFilter` scenario of the repository's
  tests.

Samples and coefficients are `real`. `ArrayIndex` is taken to be signed, so the block
counts `(size - radius - x) / 32` and `/ 8` use C's truncating division (`TruncDiv`).

The model's precondition is `LineFits(size, radius)`: `radius < size`, or no side taps
at all. This is weaker than the usual assumption `2*radius + 1 <= size`, and it is
enough. Under it:

- every offset is inside the line;
- the modulo form of `offset_right` is the exact mirror `2*size - 2 - (x + k)`;
- the block and interior loops may stop at `size - radius`. The three
  "must this be `radius + 1`" comments need no change.

For a kernel at least as long as the line, the loops read outside it (see Findings).

Where the description of the library and the code differ, the model follows the code:

- `KernelNotSymmetric` is described as having no combiner. In the code it falls to the
  primary `AddBySymmetry` template, which adds, so the model adds too.
- The test instantiates `AvxConvolveLine<KernelEven, 2>`. That compile-time-radius
  template declares no `exec_x`; its body is commented out. The scenario is therefore
  stated for the runtime-radius `exec_x`, with radius 2.

## Model

| member | source | states |
|---|---|---|
| Avx.AddBySymmetryVec | include/vigra2/fastfilters.hxx:69-97 | The register overloads (`_mm256_add_ps` / `_mm256_sub_ps`) agree lane by lane with the scalar combiner of the same symmetry: `a + b`, or `a - b` for odd kernels. |
| Symmetry.FoldsMirroredTaps | include/vigra2/fastfilters.hxx:173-176 | Combining the two mirrored samples and scaling once by `kernel[k]` equals weighting them separately by `kernel[k]` and by the mirrored tap (`kernel[k]`, or `-kernel[k]` when odd). |
| Avx.Load | include/vigra2/fastfilters.hxx:136 | A scalar read may only touch `[0, size)`; it returns `in[i]`. |
| Avx.LoadU | include/vigra2/fastfilters.hxx:156-159 | An unaligned load may only start where all eight lanes lie in `[0, size)`; lane `l` is `in[p + l]`. |
| Avx.StoreU | include/vigra2/fastfilters.hxx:189-192 | An unaligned store writes `v[i - p]` to exactly `out[p..p+8)`, which must lie in `[0, size)`; every other element keeps its old value. |
| RowReference.Right | include/vigra2/fastfilters.hxx:142-143 | Whenever `x + k <= 2*size - 2`, `offset_right` (`x + k`, or `size - ((k + x) % size) - 2`) is the mirror of `x + k` about `size - 1`, and so lies in `[0, size)`. |
| RowReference.LeftIsReflect | include/vigra2/fastfilters.hxx:140-141 | `offset_left` (`k - x` when `x < k`, else `x - k`) is the mirror of `x - k` about 0. |
| RowReference.BorderOffsets | include/vigra2/fastfilters.hxx:140-143 | For `k < size` and each case of the offsets: left of the line `k - x` lies in `[1, k]`; past the right end it is `2*size - 2 - (x + k)`; otherwise the plain `x - k` or `x + k`; and both offsets lie in `[0, size)`. |
| RowReference.OffsetsInLineIff | include/vigra2/fastfilters.hxx:132-147 | Every offset the border loops use, at every index of the line, lies in `[0, size)` if and only if `radius < size`. |
| RowReference.AccUsesSourceOffsets | include/vigra2/fastfilters.hxx:136-148 | Tap `n` of the reference accumulator combines exactly `in[offset_right]` and `in[offset_left]`, and both offsets are in range. |
| RowReference.AccInterior | include/vigra2/fastfilters.hxx:222-229 | Away from both borders (`n <= x` and `x + n < size`), tap `n` of the reference combines the plain `in[x + n]` and `in[x - n]`. |
| RowReference.AccIsWindow | include/vigra2/fastfilters.hxx:173-176 | The one-sided accumulator with folded mirrored taps equals the two-sided correlation over taps `-n..n` of the mirror-padded line. |
| RowReference.RefAtIsMirroredCorrelation | include/vigra2/fastfilters.hxx:136-148 | The reference output at `x` equals the correlation of the mirror-padded line with the full kernel `kernel[-radius..radius]`. |
| RowReference.AccIsPairSum | include/vigra2/fastfilters.hxx:136-146 | The accumulator after taps `0..n` is the kernel-weighted sum of the values it scales: `in[x]` for tap 0, and the combined mirrored pair for tap `k`. |
| RowReference.PairLinear | include/vigra2/fastfilters.hxx:139-145 | For both symmetries and every mirrored offset, the combined pair read from the line `a*s1 + b*s2` is `a` times the pair of `s1` plus `b` times the pair of `s2`. |
| RowReference.TapSumLinear | include/vigra2/fastfilters.hxx:136-146 | A kernel-weighted sum of `a*p1 + b*p2` equals `a` times the sum of `p1` plus `b` times the sum of `p2`. |
| RowReference.AccLinear | include/vigra2/fastfilters.hxx:136-146 | The accumulator after taps `0..n` of the mixed line `a*s1 + b*s2` is the same mix of the two lines' accumulators. |
| RowReference.RefAtLinear | include/vigra2/fastfilters.hxx:136-148 | The row convolution is linear in the line: at every index, filtering `a*s1 + b*s2` gives `a` times the filtered `s1` plus `b` times the filtered `s2`, for any reals `a`, `b` and lines of equal length. Through `ExecX`, the same holds for the outputs of `exec_x`. |
| RowReference.LongKernelReadsOutside | include/vigra2/fastfilters.hxx:132-145 | With no length check, a line of one sample and radius 1 are outside `LineFits`, and the first output reads `in[1]` on the left and `in[-1]` on the right. |
| AvxConvolveLine.TruncDiv | include/vigra2/fastfilters.hxx:152 | Signed `/` truncates toward zero. A non-negative dividend gives the floor quotient (`b*q <= a < b*q + b`); a negative one gives a quotient `<= 0`, so the block loop then runs zero times. |
| AvxConvolveLine.BorderSum | include/vigra2/fastfilters.hxx:136-148 | The border sum for output `x` reads only inside the line and equals `RefAt(x)`. |
| AvxConvolveLine.BorderTap | include/vigra2/fastfilters.hxx:139-145 | Adding `kernel[n] * combine(in[offset_right], in[offset_left])` turns the reference accumulator after `n - 1` taps into the one after `n`. |
| AvxConvolveLine.InteriorSum | include/vigra2/fastfilters.hxx:222-229 | For `radius <= x < size - radius`, the interior sum reads `in[x ± k]` inside the line and equals `RefAt(x)`. |
| AvxConvolveLine.InteriorTap | include/vigra2/fastfilters.hxx:226-227 | With the plain offsets `x ± n`, one interior tap advances the reference accumulator by tap `n`. |
| AvxConvolveLine.CentreTap | include/vigra2/fastfilters.hxx:156-166 | Loading `in[p..p+8)` and multiplying by the broadcast `kernel[0]` gives the register of centre-tap accumulators of outputs `p..p+7`. |
| AvxConvolveLine.AddTap | include/vigra2/fastfilters.hxx:177-186 | One `fmadd` of the combined loads at `p + k` and `p - k`, with loads inside the line, advances every lane of a register from tap `k - 1` to tap `k`. |
| AvxConvolveLine.RegisterTap | include/vigra2/fastfilters.hxx:177-186 | On values: combining the loaded lanes and applying `fmadd` with the broadcast tap to a register that holds taps `0..k-1` gives the register that holds taps `0..k`. |
| AvxConvolveLine.LaneTap | include/vigra2/fastfilters.hxx:183-186 | One lane of `fmadd(pixels, kernel_val, result)`, in the source's operand order, is the next reference accumulator. |
| AvxConvolveLine.AddTap32 | include/vigra2/fastfilters.hxx:169-187 | One pass of the tap loop of the 32-wide block, with one broadcast shared by the four registers, advances all four registers by one tap. |
| AvxConvolveLine.RegisterIsReference | include/vigra2/fastfilters.hxx:169-187 | A register that has received taps `0..radius` holds the reference outputs `RefAt(p..p+7)`. |
| AvxConvolveLine.Block8 | include/vigra2/fastfilters.hxx:200-214 | For `radius <= x` and `x + 8 + radius <= size`, the 8-wide block reads only inside the line, and its register holds `RefAt(x..x+7)`. |
| AvxConvolveLine.Block32 | include/vigra2/fastfilters.hxx:156-187 | For `radius <= x` and `x + 32 + radius <= size`, the 32-wide block reads only inside the line, and register `g` holds `RefAt(x+8g .. x+8g+7)`. |
| AvxConvolveLine.StoreBlock32 | include/vigra2/fastfilters.hxx:189-192 | The four stores put `RefAt(x..x+31)` into `out[x..x+32)` and change nothing else. |
| AvxConvolveLine.LeftBorderSpan | include/vigra2/fastfilters.hxx:133-149 | The left-border loop writes `out[0..radius)`, in order, with the reference values; it ends at `x == radius` and leaves everything from `x` on untouched. |
| AvxConvolveLine.Block32Span | include/vigra2/fastfilters.hxx:151-193 | The 32-block loop runs the C-truncated `(size - radius - x0) / 32` times, or not at all when that is not positive. It moves `x` by exactly 32 per block and appends exactly the indices `x0, ..., x-1` to the trace, so the prefix stays correct and in order. When it starts at or before `size - radius`, it stops within 32 of that bound without passing it, so no vector load leaves the line. Nothing from `x` on changes. |
| AvxConvolveLine.Block8Span | include/vigra2/fastfilters.hxx:195-217 | The 8-block loop does the same with blocks of eight: `max(0, (size - radius - x0) / 8)` blocks, `x` moved by exactly 8 per block, the trace extended by exactly `x0, ..., x-1`, and a stop within 8 of `size - radius`. |
| AvxConvolveLine.InteriorSpan | include/vigra2/fastfilters.hxx:219-230 | The scalar interior loop extends the prefix up to exactly `size - radius`, or leaves `x` where it was when it already lies at or past that bound. |
| AvxConvolveLine.RightBorderSpan | include/vigra2/fastfilters.hxx:232-248 | The right-border loop finishes the line: it ends at `x == size` with every output so far correct and written in order. |
| AvxConvolveLine.ExecX | include/vigra2/fastfilters.hxx:127-249 | `exec_x`: every `out[i]`, `0 <= i < size`, equals `RefAt(i)`. The stores go to `0, 1, ..., size-1` in this order, each exactly once. Nothing at or past `size` is written, and `in` and `kernel` are unchanged. |
| AvxConvolveLine.CheckedExecX | include/vigra2/fastfilters.hxx:132 | `exec_x` with the length check its comment asks for. It rejects a kernel longer than the line, leaving `out` untouched, and does so if and only if `LineFits` fails. Otherwise it gives `ExecX`'s result. |
| ImpulseTest.ImpulseResponse | test/test_fastfilters.cxx:47-69 | For the 21-sample impulse at index 10 and the even kernel `[0.4, 0.25, 0.05]` of radius 2, the reference output at `k` is `kernel[abs(10 - k)]` within distance 2, and `0` elsewhere. |
| ImpulseTest.ImpulseScenario | test/test_fastfilters.cxx:47-69 | Running the row pass on that impulse yields exactly those 21 outputs. |

## Left out

- Floating point: samples, taps and lanes are reals. IEEE single-precision rounding and
  the difference between a fused and an unfused multiply-add
  (`include/vigra2/fastfilters.hxx:56-58`) are not modelled. Over the reals the orders
  of addition in the five loops give the same value. The right border's
  `in[x] * kernel[0]` is therefore the same as `kernel[0] * in[x]`.
- AVX as hardware: registers are eight real lanes. Alignment, the instruction set and
  the `immintrin.h` header are not modelled.
- `likely` / `unlikely` (`include/vigra2/fastfilters.hxx:46-54`) are branch hints with no
  effect on values.
- The compile-time-radius template `AvxConvolveLine<SYMMETRY, RADIUS>`
  (`include/vigra2/fastfilters.hxx:99-122`) has its only member commented out, so there
  is nothing to model. The scenario uses the runtime-radius path instead.
- The column pass `exec_y` and the aligned scratch allocator that the tests call are not
  part of the shown header and are not part of this model.
- Pointer arithmetic is modelled as indices into `array<real>` values. `in`, `out` and
  `kernel` are required to be different arrays, except that `in` and `kernel` may
  coincide. The behaviour when `out` overlaps the input is not modelled.
- `ArrayIndex` is taken to be the signed `std::ptrdiff_t`. The vigra2 configuration
  header that defines it is not part of this model.
- The contents of `kernel` beyond `radius + 1` taps are the caller's business. The model
  requires `radius < kernel.Length`, as the code indexes `kernel[0..radius]`
  unchecked.
- The test harness, `main` and reporting (`test/test_fastfilters.cxx:100-121`) are not
  modelled.

## Findings

| source | as written | input that shows it | evidently intended | confidence | as-written member | corrected member |
|---|---|---|---|---|---|---|
| include/vigra2/fastfilters.hxx:132 | No check that the kernel is shorter than the line (the comment there asks for one). The border loops read `in[offset_left]` and `in[offset_right]` unchecked. | `size = 1`, `radius = 1`: for `x = 0`, `k = 1` the loop reads `in[1]` and `in[-1]`. | Reject a kernel reaching past the line, that is `radius >= size` with `radius > 0`. `radius < size` is enough for every read to stay inside the line; `2*radius + 1 <= size` is not needed. | medium (not executed) | RowReference.LongKernelReadsOutside | AvxConvolveLine.CheckedExecX |
