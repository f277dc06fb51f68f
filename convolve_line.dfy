/** `AvxConvolveLine<SYMMETRY, runtime_size>::exec_x`: the row pass of the separable
    filter. It splits `[0, size)` into five consecutive spans (left border, 32-wide vector
    blocks, 8-wide vector blocks, scalar interior, right border), each computing the same
    per-index formula its own way. `ExecX` is proved against `RowReference.RefAt`. */
module AvxConvolveLine {
  import opened Symmetry
  import opened Avx
  import opened RowReference

  /** `/` on the signed `ArrayIndex`: C++ truncates the quotient toward zero. */
  function TruncDiv(a: int, b: nat): (q: int)
    requires 0 < b
    ensures 0 <= a ==> 0 <= q && b * q <= a < b * q + b
    ensures a < 0 ==> q <= 0
  {
    DivFloor(if a >= 0 then a else -a, b);
    if a >= 0 then a / b else -((-a) / b)
  }

  /** The Euclidean quotient of a non-negative dividend. */
  lemma DivFloor(a: nat, b: nat)
    requires 0 < b
    ensures 0 <= a / b && b * (a / b) <= a < b * (a / b) + b
  {
    var q, r := a / b, a % b;
    assert a == b * q + r && 0 <= r < b;
  }

  /** The accumulators of outputs `p .. p+7` after taps `0..n`, as one register. */
  ghost function AccLanes(sym: KernelSymmetry, s: seq<real>, kernel: seq<real>, p: nat, n: nat): (v: Vec8)
    requires p + Width <= |s| && n < |kernel| && n < |s|
  {
    seq(Width, l requires 0 <= l < Width => Acc(sym, s, kernel, p + l, n))
  }

  /** The reference outputs `p .. p+7`, as one register. */
  ghost function RefLanes(sym: KernelSymmetry, s: seq<real>, kernel: seq<real>, radius: nat, p: nat): (v: Vec8)
    requires radius < |kernel| && LineFits(|s|, radius) && p + Width <= |s|
  {
    seq(Width, l requires 0 <= l < Width => RefAt(sym, s, kernel, radius, p + l))
  }

  /** Lane `l` of register `r` holds the accumulator of output `p + l` after taps `0..n`. */
  ghost predicate RegisterHolds(r: Vec8, sym: KernelSymmetry, s: seq<real>, kernel: seq<real>, p: nat, n: nat)
  {
    p + Width <= |s| && n < |kernel| && n < |s| && r == AccLanes(sym, s, kernel, p, n)
  }

  /** One output of a border loop: the centre tap, then every side tap with the general
      reflected offsets `offset_left` and `offset_right`. */
  method BorderSum(sym: KernelSymmetry, input: array<real>, size: nat, kernel: array<real>, radius: nat, x: nat,
                 ghost s: seq<real>, ghost ks: seq<real>)
    returns (sum: real)
    requires size <= input.Length && radius < kernel.Length && LineFits(size, radius) && x < size
    requires s == input[..size] && ks == kernel[..]
    ensures sum == RefAt(sym, s, ks, radius, x)
  {
    var centre := Load(input, size, x);
    sum := kernel[0] * centre;
    for k := 1 to radius + 1
      invariant sum == Acc(sym, s, ks, x, k - 1)
    {
      var offsetLeft := Left(x, k);
      var offsetRight := Right(x, k, size);
      BorderOffsets(x, k, size);
      var right := Load(input, size, offsetRight);
      var left := Load(input, size, offsetLeft);
      var tap := kernel[k];
      BorderTap(sym, s, ks, x, k, sum, tap, offsetRight, offsetLeft, right, left);
      sum := sum + tap * AddBySymmetry(sym, right, left);
    }
  }

  /** One step of a border loop, on values: adding tap `n` at the source's offsets
      turns the accumulator after `n - 1` taps into the one after `n`. */
  lemma BorderTap(sym: KernelSymmetry, s: seq<real>, kernel: seq<real>, x: nat, n: nat,
                  acc: real, tap: real, offsetRight: int, offsetLeft: nat, right: real, left: real)
    requires x < |s| && 0 < n < |kernel| && n < |s| && tap == kernel[n]
    requires offsetRight == Right(x, n, |s|) && offsetLeft == Left(x, n)
    requires acc == Acc(sym, s, kernel, x, n - 1)
    requires 0 <= offsetRight < |s| && offsetLeft < |s|
    requires right == s[offsetRight] && left == s[offsetLeft]
    ensures acc + tap * AddBySymmetry(sym, right, left) == Acc(sym, s, kernel, x, n)
  {
    AccUsesSourceOffsets(sym, s, kernel, x, n);
  }

  /** One output of the scalar interior loop: side taps read `in[x + k]` and `in[x - k]`. */
  method InteriorSum(sym: KernelSymmetry, input: array<real>, size: nat, kernel: array<real>, radius: nat, x: nat,
                 ghost s: seq<real>, ghost ks: seq<real>)
    returns (sum: real)
    requires size <= input.Length && radius < kernel.Length && radius <= x && x + radius < size
    requires s == input[..size] && ks == kernel[..]
    ensures sum == RefAt(sym, s, ks, radius, x)
  {
    var centre := Load(input, size, x);
    sum := kernel[0] * centre;
    for k := 1 to radius + 1
      invariant sum == Acc(sym, s, ks, x, k - 1)
    {
      var tap := kernel[k];
      var right := Load(input, size, x + k);
      var left := Load(input, size, x - k);
      InteriorTap(sym, s, ks, x, k, sum, tap, right, left);
      sum := sum + tap * AddBySymmetry(sym, right, left);
    }
  }

  /** One step of the scalar interior loop, on values: the plain offsets `x + n` and
      `x - n` turn the accumulator after `n - 1` taps into the one after `n`. */
  lemma InteriorTap(sym: KernelSymmetry, s: seq<real>, kernel: seq<real>, x: nat, n: nat,
                    acc: real, tap: real, right: real, left: real)
    requires 0 < n <= x && x + n < |s| && n < |kernel| && tap == kernel[n]
    requires acc == Acc(sym, s, kernel, x, n - 1)
    requires right == s[x + n] && left == s[x - n]
    ensures acc + tap * AddBySymmetry(sym, right, left) == Acc(sym, s, kernel, x, n)
  {
    AccInterior(sym, s, kernel, x, n);
  }

  /** One side tap `k` on one register at `p`: load `in + p + k` and `in + (p - k)`,
      combine them and fuse-multiply-add with the broadcast tap. */
  method AddTap(sym: KernelSymmetry, input: array<real>, size: nat, p: nat, k: nat,
                kernelVal: Vec8, acc: Vec8, ghost s: seq<real>, ghost kernel: seq<real>)
    returns (result: Vec8)
    requires size <= input.Length && s == input[..size] && 0 < k <= p && p + Width + k <= size && k < |kernel|
    requires kernelVal == Broadcast(kernel[k])
    requires RegisterHolds(acc, sym, s, kernel, p, k - 1)
    ensures RegisterHolds(result, sym, s, kernel, p, k)
  {
    var right := LoadU(input, size, p + k);
    var left := LoadU(input, size, p - k);
    var pixels := AddBySymmetryVec(sym, right, left);
    result := FmaddPs(pixels, kernelVal, acc);
    RegisterTap(sym, s, kernel, p, k, acc, right, left, kernelVal);
  }

  /** On values: tap `k` applied to a register that holds taps `0..k-1`, with the two
      loads at `p + k` and `p - k`, gives the register holding taps `0..k`. */
  lemma RegisterTap(sym: KernelSymmetry, s: seq<real>, kernel: seq<real>, p: nat, k: nat,
                    acc: Vec8, right: Vec8, left: Vec8, kernelVal: Vec8)
    requires 0 < k <= p && p + Width + k <= |s| && k < |kernel|
    requires RegisterHolds(acc, sym, s, kernel, p, k - 1)
    requires kernelVal == Broadcast(kernel[k])
    requires forall l :: 0 <= l < Width ==> right[l] == s[p + k + l] && left[l] == s[p - k + l]
    ensures RegisterHolds(FmaddPs(AddBySymmetryVec(sym, right, left), kernelVal, acc), sym, s, kernel, p, k)
  {
    var pixels := AddBySymmetryVec(sym, right, left);
    forall l | 0 <= l < Width
      ensures FmaddPs(pixels, kernelVal, acc)[l] == AccLanes(sym, s, kernel, p, k)[l]
    {
      assert acc[l] == AccLanes(sym, s, kernel, p, k - 1)[l];
      LaneTap(sym, s, kernel, p + l, k, acc[l], pixels[l], kernelVal[l]);
    }
  }

  /** One lane of the fused multiply-add, with the source's operand order. */
  lemma LaneTap(sym: KernelSymmetry, s: seq<real>, kernel: seq<real>, q: nat, k: nat, acc: real, pixel: real, tap: real)
    requires 0 < k <= q && q + k < |s| && k < |kernel|
    requires acc == Acc(sym, s, kernel, q, k - 1)
    requires pixel == AddBySymmetry(sym, s[q + k], s[q - k]) && tap == kernel[k]
    ensures pixel * tap + acc == Acc(sym, s, kernel, q, k)
  {
    AccInterior(sym, s, kernel, q, k);
  }

  /** The centre tap on one register at `p`: `in[p .. p+8)` times the broadcast `kernel[0]`. */
  method CentreTap(input: array<real>, size: nat, p: nat, kernelVal: Vec8,
                   ghost sym: KernelSymmetry, ghost s: seq<real>, ghost kernel: seq<real>)
    returns (result: Vec8)
    requires size <= input.Length && s == input[..size] && p + Width <= size && 0 < |kernel|
    requires kernelVal == Broadcast(kernel[0])
    ensures RegisterHolds(result, sym, s, kernel, p, 0)
  {
    var pixels := LoadU(input, size, p);
    result := MulPs(pixels, kernelVal);
    forall l | 0 <= l < Width
      ensures result[l] == Acc(sym, s, kernel, p + l, 0)
    {
      assert pixels[l] == s[p + l];
    }
  }

  /** One register of the 8-wide block loop: outputs `x .. x+7`. */
  method Block8(sym: KernelSymmetry, input: array<real>, size: nat, kernel: array<real>, radius: nat, x: nat,
                ghost s: seq<real>, ghost ks: seq<real>)
    returns (result0: Vec8)
    requires size <= input.Length && radius < kernel.Length && radius <= x && x + Width + radius <= size
    requires s == input[..size] && ks == kernel[..]
    ensures result0 == RefLanes(sym, s, ks, radius, x)
  {
    var kernelVal := Broadcast(kernel[0]);
    result0 := CentreTap(input, size, x, kernelVal, sym, s, ks);
    for k := 1 to radius + 1
      invariant RegisterHolds(result0, sym, s, ks, x, k - 1)
    {
      kernelVal := Broadcast(kernel[k]);
      result0 := AddTap(sym, input, size, x, k, kernelVal, result0, s, ks);
    }
    RegisterIsReference(result0, sym, s, ks, radius, x);
  }

  /** The four registers of the 32-wide block loop: outputs `x .. x+31`, register `g`
      holding outputs `x + 8g .. x + 8g + 7`. All four share one broadcast tap per `k`. */
  method Block32(sym: KernelSymmetry, input: array<real>, size: nat, kernel: array<real>, radius: nat, x: nat,
                 ghost s: seq<real>, ghost ks: seq<real>)
    returns (result0: Vec8, result1: Vec8, result2: Vec8, result3: Vec8)
    requires size <= input.Length && radius < kernel.Length && radius <= x && x + 4 * Width + radius <= size
    requires s == input[..size] && ks == kernel[..]
    ensures result0 == RefLanes(sym, s, ks, radius, x)
    ensures result1 == RefLanes(sym, s, ks, radius, x + 8)
    ensures result2 == RefLanes(sym, s, ks, radius, x + 16)
    ensures result3 == RefLanes(sym, s, ks, radius, x + 24)
  {
    var kernelVal := Broadcast(kernel[0]);
    result0 := CentreTap(input, size, x, kernelVal, sym, s, ks);
    result1 := CentreTap(input, size, x + 8, kernelVal, sym, s, ks);
    result2 := CentreTap(input, size, x + 16, kernelVal, sym, s, ks);
    result3 := CentreTap(input, size, x + 24, kernelVal, sym, s, ks);
    for k := 1 to radius + 1
      invariant RegisterHolds(result0, sym, s, ks, x, k - 1)
      invariant RegisterHolds(result1, sym, s, ks, x + 8, k - 1)
      invariant RegisterHolds(result2, sym, s, ks, x + 16, k - 1)
      invariant RegisterHolds(result3, sym, s, ks, x + 24, k - 1)
    {
      result0, result1, result2, result3 := AddTap32(sym, input, size, x, k, kernel, result0, result1, result2, result3, s, ks);
    }
    RegisterIsReference(result0, sym, s, ks, radius, x);
    RegisterIsReference(result1, sym, s, ks, radius, x + 8);
    RegisterIsReference(result2, sym, s, ks, radius, x + 16);
    RegisterIsReference(result3, sym, s, ks, radius, x + 24);
  }

  /** Tap `k` of the 32-wide block: one broadcast of `kernel[k]`, shared by the four registers. */
  method AddTap32(sym: KernelSymmetry, input: array<real>, size: nat, x: nat, k: nat, kernel: array<real>,
                  acc0: Vec8, acc1: Vec8, acc2: Vec8, acc3: Vec8, ghost s: seq<real>, ghost ks: seq<real>)
    returns (result0: Vec8, result1: Vec8, result2: Vec8, result3: Vec8)
    requires size <= input.Length && 0 < k <= x && x + 4 * Width + k <= size && k < kernel.Length
    requires s == input[..size] && ks == kernel[..]
    requires RegisterHolds(acc0, sym, s, ks, x, k - 1)
    requires RegisterHolds(acc1, sym, s, ks, x + 8, k - 1)
    requires RegisterHolds(acc2, sym, s, ks, x + 16, k - 1)
    requires RegisterHolds(acc3, sym, s, ks, x + 24, k - 1)
    ensures RegisterHolds(result0, sym, s, ks, x, k)
    ensures RegisterHolds(result1, sym, s, ks, x + 8, k)
    ensures RegisterHolds(result2, sym, s, ks, x + 16, k)
    ensures RegisterHolds(result3, sym, s, ks, x + 24, k)
  {
    var kernelVal := Broadcast(kernel[k]);
    result0 := AddTap(sym, input, size, x, k, kernelVal, acc0, s, ks);
    result1 := AddTap(sym, input, size, x + 8, k, kernelVal, acc1, s, ks);
    result2 := AddTap(sym, input, size, x + 16, k, kernelVal, acc2, s, ks);
    result3 := AddTap(sym, input, size, x + 24, k, kernelVal, acc3, s, ks);
  }

  /** A register that has received every tap holds the reference outputs of its lanes. */
  lemma RegisterIsReference(r: Vec8, sym: KernelSymmetry, s: seq<real>, kernel: seq<real>, radius: nat, p: nat)
    requires RegisterHolds(r, sym, s, kernel, p, radius) && LineFits(|s|, radius)
    ensures r == RefLanes(sym, s, kernel, radius, p)
  {
    forall l | 0 <= l < Width
      ensures r[l] == RefLanes(sym, s, kernel, radius, p)[l]
    {
      assert r[l] == AccLanes(sym, s, kernel, p, radius)[l];
      assert RefLanes(sym, s, kernel, radius, p)[l] == RefAt(sym, s, kernel, radius, p + l);
    }
  }

  /** The four unaligned stores of one 32-wide block: `out[x + 8g .. x + 8g + 7]` receive
      register `g`, which hold the reference outputs `x .. x+31`. */
  method StoreBlock32(output: array<real>, size: nat, x: nat, result0: Vec8, result1: Vec8, result2: Vec8, result3: Vec8,
                      ghost sym: KernelSymmetry, ghost s: seq<real>, ghost kernel: seq<real>, ghost radius: nat)
    requires size <= output.Length && x + 4 * Width <= size == |s| && radius < |kernel| && LineFits(|s|, radius)
    requires result0 == RefLanes(sym, s, kernel, radius, x)
    requires result1 == RefLanes(sym, s, kernel, radius, x + 8)
    requires result2 == RefLanes(sym, s, kernel, radius, x + 16)
    requires result3 == RefLanes(sym, s, kernel, radius, x + 24)
    modifies output
    ensures forall i :: 0 <= i < output.Length ==>
      output[i] == if x <= i < x + 4 * Width then RefAt(sym, s, kernel, radius, i) else old(output[i])
  {
    StoreU(output, size, x, result0);
    StoreU(output, size, x + 8, result1);
    StoreU(output, size, x + 16, result2);
    StoreU(output, size, x + 24, result3);
    forall i | x <= i < x + 4 * Width
      ensures output[i] == RefAt(sym, s, kernel, radius, i)
    {
      if i < x + 8 {
        assert output[i] == result0[i - x] == RefLanes(sym, s, kernel, radius, x)[i - x];
      } else if i < x + 16 {
        assert output[i] == result1[i - x - 8] == RefLanes(sym, s, kernel, radius, x + 8)[i - x - 8];
      } else if i < x + 24 {
        assert output[i] == result2[i - x - 16] == RefLanes(sym, s, kernel, radius, x + 16)[i - x - 16];
      } else {
        assert output[i] == result3[i - x - 24] == RefLanes(sym, s, kernel, radius, x + 24)[i - x - 24];
      }
    }
  }

  /** Outputs `[0, n)` hold the reference values. */
  ghost predicate DoneUpTo(output: array<real>, sym: KernelSymmetry, s: seq<real>, kernel: seq<real>, radius: nat, n: int)
    reads output
  {
    0 <= n <= |s| && n <= output.Length && radius < |kernel| && LineFits(|s|, radius) &&
    forall i :: 0 <= i < n ==> output[i] == RefAt(sym, s, kernel, radius, i)
  }

  /** The writes so far went to `0, 1, ..., n-1`, in this order, each once. */
  ghost predicate WrittenInOrder(trace: seq<int>, n: int)
  {
    |trace| == n && forall i :: 0 <= i < n ==> trace[i] == i
  }

  /** What every span needs of the caller: the extents of `exec_x` and disjoint buffers. */
  predicate Extents(input: array<real>, size: nat, output: array<real>, kernel: array<real>, radius: nat)
  {
    size <= input.Length && size <= output.Length && radius < kernel.Length && LineFits(size, radius)
    && output != input && output != kernel
  }

  /** The spans left of `x` are done and everything from `x` on is as the span found it. */
  ghost predicate Progress(sym: KernelSymmetry, s: seq<real>, ks: seq<real>, output: array<real>,
                           radius: nat, trace: seq<int>, x: int)
    reads output
  {
    DoneUpTo(output, sym, s, ks, radius, x) && WrittenInOrder(trace, x)
  }

  /** Where the vector spans may start and stop: past the left border, and either no
      further right than `size - radius` or not moved from `radius` at all. */
  predicate InInterior(x: int, size: nat, radius: nat)
  {
    radius <= x && (x <= size - radius || x == radius)
  }

  /** The left-border loop, `x` from 0 to `radius`. */
  method LeftBorderSpan(sym: KernelSymmetry, input: array<real>, size: nat, output: array<real>, kernel: array<real>,
                        radius: nat, ghost s: seq<real>, ghost ks: seq<real>)
    returns (x: int, ghost trace: seq<int>)
    requires Extents(input, size, output, kernel, radius) && s == input[..size] && ks == kernel[..]
    modifies output
    ensures Progress(sym, s, ks, output, radius, trace, x) && x == radius
    ensures forall i :: x <= i < output.Length ==> output[i] == old(output[i])
  {
    trace := [];
    x := 0;
    while x < radius
      invariant 0 <= x <= radius
      invariant Progress(sym, s, ks, output, radius, trace, x)
      invariant forall i :: x <= i < output.Length ==> output[i] == old(output[i])
    {
      var sum := BorderSum(sym, input, size, kernel, radius, x, s, ks);
      output[x] := sum;
      trace := trace + [x];
      x := x + 1;
    }
  }

  /** The 32-wide block loop: `(size - radius - x) / 32` blocks of four registers. */
  method Block32Span(sym: KernelSymmetry, input: array<real>, size: nat, output: array<real>, kernel: array<real>,
                     radius: nat, x0: int, ghost trace0: seq<int>, ghost s: seq<real>, ghost ks: seq<real>)
    returns (x: int, ghost trace: seq<int>)
    requires Extents(input, size, output, kernel, radius) && s == input[..size] && ks == kernel[..] && InInterior(x0, size, radius)
    requires Progress(sym, s, ks, output, radius, trace0, x0)
    modifies output
    ensures Progress(sym, s, ks, output, radius, trace, x) && InInterior(x, size, radius)
    ensures x == x0 + 32 * (if TruncDiv(size - radius - x0, 32) > 0 then TruncDiv(size - radius - x0, 32) else 0)
    ensures x0 <= size - radius ==> x <= size - radius < x + 32
    ensures trace == trace0 + seq(x - x0, i => x0 + i)
    ensures forall i :: x <= i < output.Length ==> output[i] == old(output[i])
  {
    x, trace := x0, trace0;
    var steps := TruncDiv(size - radius - x, 32);
    var j := 0;
    while j < steps
      invariant 0 <= j && (j <= steps || j == 0)
      invariant x == x0 + 32 * j
      invariant Progress(sym, s, ks, output, radius, trace, x)
      invariant trace == trace0 + seq(x - x0, i => x0 + i)
      invariant forall i :: x <= i < output.Length ==> output[i] == old(output[i])
    {
      var result0, result1, result2, result3 := Block32(sym, input, size, kernel, radius, x, s, ks);
      StoreBlock32(output, size, x, result0, result1, result2, result3, sym, s, ks, radius);
      trace := trace + seq(32, l => x + l);
      j := j + 1;
      x := x + 32;
    }
  }

  /** The 8-wide block loop: `(size - radius - x) / 8` blocks of one register. */
  method Block8Span(sym: KernelSymmetry, input: array<real>, size: nat, output: array<real>, kernel: array<real>,
                    radius: nat, x0: int, ghost trace0: seq<int>, ghost s: seq<real>, ghost ks: seq<real>)
    returns (x: int, ghost trace: seq<int>)
    requires Extents(input, size, output, kernel, radius) && s == input[..size] && ks == kernel[..] && InInterior(x0, size, radius)
    requires Progress(sym, s, ks, output, radius, trace0, x0)
    modifies output
    ensures Progress(sym, s, ks, output, radius, trace, x) && InInterior(x, size, radius)
    ensures x == x0 + 8 * (if TruncDiv(size - radius - x0, 8) > 0 then TruncDiv(size - radius - x0, 8) else 0)
    ensures x0 <= size - radius ==> x <= size - radius < x + 8
    ensures trace == trace0 + seq(x - x0, i => x0 + i)
    ensures forall i :: x <= i < output.Length ==> output[i] == old(output[i])
  {
    x, trace := x0, trace0;
    var steps := TruncDiv(size - radius - x, 8);
    var j := 0;
    while j < steps
      invariant 0 <= j && (j <= steps || j == 0)
      invariant x == x0 + 8 * j
      invariant Progress(sym, s, ks, output, radius, trace, x)
      invariant trace == trace0 + seq(x - x0, i => x0 + i)
      invariant forall i :: x <= i < output.Length ==> output[i] == old(output[i])
    {
      var result0 := Block8(sym, input, size, kernel, radius, x, s, ks);
      StoreU(output, size, x, result0);
      forall i | x <= i < x + Width
        ensures output[i] == RefAt(sym, s, ks, radius, i)
      {
        assert output[i] == result0[i - x] == RefLanes(sym, s, ks, radius, x)[i - x];
      }
      trace := trace + seq(8, l => x + l);
      j := j + 1;
      x := x + 8;
    }
  }

  /** The scalar interior loop, up to `size - radius`. */
  method InteriorSpan(sym: KernelSymmetry, input: array<real>, size: nat, output: array<real>, kernel: array<real>,
                      radius: nat, x0: int, ghost trace0: seq<int>, ghost s: seq<real>, ghost ks: seq<real>)
    returns (x: int, ghost trace: seq<int>)
    requires Extents(input, size, output, kernel, radius) && s == input[..size] && ks == kernel[..] && InInterior(x0, size, radius)
    requires Progress(sym, s, ks, output, radius, trace0, x0)
    modifies output
    ensures Progress(sym, s, ks, output, radius, trace, x)
    ensures x == if x0 < size - radius then size - radius else x0
    ensures forall i :: x <= i < output.Length ==> output[i] == old(output[i])
  {
    x, trace := x0, trace0;
    while x < size - radius
      invariant x0 <= x && (x0 < size - radius ==> x <= size - radius) && (x0 >= size - radius ==> x == x0)
      invariant Progress(sym, s, ks, output, radius, trace, x)
      invariant forall i :: x <= i < output.Length ==> output[i] == old(output[i])
    {
      var sum := InteriorSum(sym, input, size, kernel, radius, x, s, ks);
      output[x] := sum;
      trace := trace + [x];
      x := x + 1;
    }
  }

  /** The right-border loop, up to `size`. */
  method RightBorderSpan(sym: KernelSymmetry, input: array<real>, size: nat, output: array<real>, kernel: array<real>,
                         radius: nat, x0: int, ghost trace0: seq<int>, ghost s: seq<real>, ghost ks: seq<real>)
    returns (x: int, ghost trace: seq<int>)
    requires Extents(input, size, output, kernel, radius) && s == input[..size] && ks == kernel[..] && 0 <= x0 <= size
    requires Progress(sym, s, ks, output, radius, trace0, x0)
    modifies output
    ensures Progress(sym, s, ks, output, radius, trace, x) && x == size
    ensures forall i :: x <= i < output.Length ==> output[i] == old(output[i])
  {
    x, trace := x0, trace0;
    while x < size
      invariant x0 <= x <= size
      invariant Progress(sym, s, ks, output, radius, trace, x)
      invariant forall i :: x <= i < output.Length ==> output[i] == old(output[i])
    {
      var sum := BorderSum(sym, input, size, kernel, radius, x, s, ks);
      output[x] := sum;
      trace := trace + [x];
      x := x + 1;
    }
  }

  /** The row convolution `exec_x(in, size, out, kernel, radius)`. The five spans run one
      after the other on a shared `x`; `trace` records, in order, every output index they
      store to (lane by lane for a vector store). */
  method ExecX(sym: KernelSymmetry, input: array<real>, size: nat, output: array<real>, kernel: array<real>, radius: nat)
    returns (ghost trace: seq<int>)
    requires size <= input.Length && size <= output.Length && radius < kernel.Length
    requires LineFits(size, radius)
    requires output != input && output != kernel
    modifies output
    ensures forall i :: 0 <= i < size ==> output[i] == RefAt(sym, input[..size], kernel[..], radius, i)
    ensures forall i :: size <= i < output.Length ==> output[i] == old(output[i])
    ensures WrittenInOrder(trace, size)
    ensures input[..] == old(input[..]) && kernel[..] == old(kernel[..])
  {
    ghost var s, ks := input[..size], kernel[..];
    var x;
    x, trace := LeftBorderSpan(sym, input, size, output, kernel, radius, s, ks);
    x, trace := Block32Span(sym, input, size, output, kernel, radius, x, trace, s, ks);
    x, trace := Block8Span(sym, input, size, output, kernel, radius, x, trace, s, ks);
    x, trace := InteriorSpan(sym, input, size, output, kernel, radius, x, trace, s, ks);
    x, trace := RightBorderSpan(sym, input, size, output, kernel, radius, x, trace, s, ks);
  }

  /** The outcome of the checked row pass. */
  datatype Outcome = Done | KernelLongerThanLine

  /** `exec_x` with the length check its first comment asks for: a kernel reaching past
      the line is rejected before anything is read or written. */
  method CheckedExecX(sym: KernelSymmetry, input: array<real>, size: nat, output: array<real>, kernel: array<real>,
                      radius: nat)
    returns (outcome: Outcome, ghost trace: seq<int>)
    requires size <= input.Length && size <= output.Length && radius < kernel.Length
    requires output != input && output != kernel
    modifies output
    ensures outcome == KernelLongerThanLine <==> !LineFits(size, radius)
    ensures outcome == KernelLongerThanLine ==> output[..] == old(output[..]) && trace == []
    ensures outcome == Done ==>
      (forall i :: 0 <= i < size ==> output[i] == RefAt(sym, input[..size], kernel[..], radius, i))
      && (forall i :: size <= i < output.Length ==> output[i] == old(output[i]))
      && WrittenInOrder(trace, size)
  {
    if !LineFits(size, radius) {
      return KernelLongerThanLine, [];
    }
    trace := ExecX(sym, input, size, output, kernel, radius);
    outcome := Done;
  }
}
