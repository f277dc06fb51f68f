/** The single per-index formula that the row convolver must reproduce at every index,
    and an independent statement of it as a two-sided correlation over a mirror-padded line.

    For a line `s` of `size` samples, a kernel `kernel[0..radius]` and a symmetry kind:
      out[x] = kernel[0]*s[x] + sum_{k=1..radius} kernel[k] * combine(s[Right(x,k)], s[Left(x,k)])
    where `Left` and `Right` are the border offsets written in the source. The reference
    function states the taps through the mirror `Reflect`; `Right` and `Left` are proved to
    be that mirror wherever the formula uses them. */
module RowReference {
  import opened Symmetry

  /** The extents for which the convolver stays inside the line: the kernel is shorter
      than the line, or there are no side taps at all. */
  predicate LineFits(size: nat, radius: nat)
  {
    radius < size || radius == 0
  }

  /** The non-repeating mirror of a virtual index `i` into `[0, n)`: reflect about 0 on the
      left and about `n-1` on the right, without repeating the edge sample. */
  function Reflect(i: int, n: nat): (r: nat)
    requires 0 < n && -(n as int) < i <= 2 * n - 2
    ensures r < n
  {
    if i < 0 then -i else if i < n then i else 2 * n - 2 - i
  }

  /** `offset_left` of the border loops. */
  function Left(x: nat, k: nat): (r: nat)
  {
    if x < k then k - x else x - k
  }

  /** `offset_right` of the border loops. Whenever `x + k` lies at most `size - 2` past the
      last sample, the modulo form is exactly the mirror of `x + k` about `size - 1`. */
  function Right(x: nat, k: nat, size: nat): (r: int)
    requires 0 < size
    ensures x + k <= 2 * size - 2 ==> r == Reflect(x + k, size)
  {
    if x + k < size then x + k
    else
      ModOnce(k + x, size);
      size - (k + x) % size - 2
  }

  /** `a % n` for `n <= a < 2n` subtracts `n` once. */
  lemma ModOnce(a: int, n: int)
    requires 0 < n
    ensures n <= a < 2 * n ==> a % n == a - n
  {
    if n <= a < 2 * n {
      assert a == n * 1 + (a - n);
    }
  }

  /** `Left` mirrors `x - k` about 0. */
  lemma LeftIsReflect(x: nat, k: nat, size: nat)
    requires x < size && k < size + x
    ensures Left(x, k) == Reflect(x - k, size)
  {
  }

  /** The two border offsets, case by case, for a side tap shorter than the line: left of
      the tap's reach `k - x` lies in `[1, k]`; past the right end the modulo form is
      `2*size - 2 - (x + k)`; and both stay inside `[0, size)`. */
  lemma BorderOffsets(x: nat, k: nat, size: nat)
    requires x < size && 0 < k < size
    ensures x < k ==> 1 <= Left(x, k) <= k
    ensures x >= k ==> Left(x, k) == x - k
    ensures x + k < size ==> Right(x, k, size) == x + k
    ensures x + k >= size ==> Right(x, k, size) == 2 * size - 2 - (x + k)
    ensures Left(x, k) < size && 0 <= Right(x, k, size) < size
  {
  }

  /** The accumulator after the centre tap and side taps `1..n`, in the order the source
      adds them. */
  function Acc(sym: KernelSymmetry, s: seq<real>, kernel: seq<real>, x: nat, n: nat): (r: real)
    requires x < |s| && n < |kernel| && n < |s|
  {
    if n == 0 then kernel[0] * s[x]
    else Acc(sym, s, kernel, x, n - 1) + kernel[n] * AddBySymmetry(sym, s[Reflect(x + n, |s|)], s[Reflect(x - n, |s|)])
  }

  /** The accumulator adds, at side tap `n`, exactly the samples at the source's offsets
      `offset_right` and `offset_left`. */
  lemma AccUsesSourceOffsets(sym: KernelSymmetry, s: seq<real>, kernel: seq<real>, x: nat, n: nat)
    requires x < |s| && 0 < n < |kernel| && n < |s|
    ensures 0 <= Right(x, n, |s|) < |s| && Left(x, n) < |s|
    ensures Acc(sym, s, kernel, x, n)
         == Acc(sym, s, kernel, x, n - 1) + kernel[n] * AddBySymmetry(sym, s[Right(x, n, |s|)], s[Left(x, n)])
  {
    LeftIsReflect(x, n, |s|);
  }

  /** Away from both borders the mirrored offsets are the plain `x + k` and `x - k`. */
  lemma AccInterior(sym: KernelSymmetry, s: seq<real>, kernel: seq<real>, x: nat, n: nat)
    requires 0 < n <= x && x + n < |s| && n < |kernel|
    ensures Acc(sym, s, kernel, x, n)
         == Acc(sym, s, kernel, x, n - 1) + kernel[n] * AddBySymmetry(sym, s[x + n], s[x - n])
  {
  }

  /** The reference output at index `x`. */
  function RefAt(sym: KernelSymmetry, s: seq<real>, kernel: seq<real>, radius: nat, x: nat): (r: real)
    requires radius < |kernel| && LineFits(|s|, radius) && x < |s|
  {
    Acc(sym, s, kernel, x, radius)
  }

  /** Every offset the formula uses at an index of the line is inside the line exactly
      when the kernel is shorter than the line. */
  lemma OffsetsInLineIff(size: nat, radius: nat)
    requires 0 < size
    ensures (forall x: nat, k: nat :: x < size && 1 <= k <= radius ==>
               Left(x, k) < size && 0 <= Right(x, k, size) < size)
        <==> radius < size
  {
    if radius >= size {
      assert Left(0, size) == size;
    }
  }

  /** Without a length check, a kernel as long as the line reads outside it: for a line of
      one sample and radius 1, the first output reads `in[1]` on the left and `in[-1]` on
      the right. */
  lemma LongKernelReadsOutside()
    ensures !LineFits(1, 1)
    ensures Left(0, 1) == 1 && Right(0, 1, 1) == -1
  {
    ModOnce(1, 1);
  }

  // ---------------------------------------------------------------------------
  // Linearity: the row convolution of a weighted sum of two lines is the same
  // weighted sum of their row convolutions.

  /** `m` is the line `a*s1 + b*s2`, sample by sample. */
  ghost predicate IsMix(m: seq<real>, a: real, s1: seq<real>, b: real, s2: seq<real>)
  {
    |m| == |s1| == |s2| && forall i :: 0 <= i < |m| ==> m[i] == a * s1[i] + b * s2[i]
  }

  /** What tap `k` of the accumulator scales: the centre sample for `k == 0`, otherwise
      the combined mirrored pair. */
  function Pair(sym: KernelSymmetry, s: seq<real>, x: nat, k: nat): (r: real)
    requires x < |s| && k < |s|
  {
    if k == 0 then s[x] else AddBySymmetry(sym, s[Reflect(x + k, |s|)], s[Reflect(x - k, |s|)])
  }

  /** The pairs of taps `0..n`, as one sequence. */
  function Pairs(sym: KernelSymmetry, s: seq<real>, x: nat, n: nat): (ps: seq<real>)
    requires x < |s| && n < |s|
    ensures |ps| == n + 1 && forall k :: 0 <= k <= n ==> ps[k] == Pair(sym, s, x, k)
  {
    seq(n + 1, k requires 0 <= k <= n => Pair(sym, s, x, k))
  }

  /** `sum_{k=0..n} kernel[k] * ps[k]`, summed in tap order. */
  function TapSum(kernel: seq<real>, ps: seq<real>, n: nat): (r: real)
    requires n < |kernel| && n < |ps|
  {
    if n == 0 then kernel[0] * ps[0] else TapSum(kernel, ps, n - 1) + kernel[n] * ps[n]
  }

  /** The accumulator is the tap sum of the pairs it reads. */
  lemma {:induction false} AccIsTapSum(sym: KernelSymmetry, s: seq<real>, kernel: seq<real>, x: nat, n: nat, ps: seq<real>)
    requires x < |s| && n < |kernel| && n < |s| && n < |ps|
    requires forall k :: 0 <= k <= n ==> ps[k] == Pair(sym, s, x, k)
    ensures Acc(sym, s, kernel, x, n) == TapSum(kernel, ps, n)
  {
    if n > 0 {
      AccIsTapSum(sym, s, kernel, x, n - 1, ps);
    }
    assert ps[n] == Pair(sym, s, x, n);
  }

  /** The accumulator is the tap sum of its own pairs. */
  lemma AccIsPairSum(sym: KernelSymmetry, s: seq<real>, kernel: seq<real>, x: nat, n: nat)
    requires x < |s| && n < |kernel| && n < |s|
    ensures Acc(sym, s, kernel, x, n) == TapSum(kernel, Pairs(sym, s, x, n), n)
  {
    AccIsTapSum(sym, s, kernel, x, n, Pairs(sym, s, x, n));
  }

  /** The pair read from a mixed line is the mix of the pairs. */
  lemma PairLinear(sym: KernelSymmetry, m: seq<real>, a: real, s1: seq<real>, b: real, s2: seq<real>, x: nat, k: nat)
    requires IsMix(m, a, s1, b, s2) && x < |m| && k < |m|
    ensures Pair(sym, m, x, k) == a * Pair(sym, s1, x, k) + b * Pair(sym, s2, x, k)
  {
    if k == 0 {
      assert m[x] == a * s1[x] + b * s2[x];
    } else {
      var r, l := Reflect(x + k, |m|), Reflect(x - k, |m|);
      assert m[r] == a * s1[r] + b * s2[r] && m[l] == a * s1[l] + b * s2[l];
    }
  }

  /** The pairs of a mixed line are the mix of the pairs. */
  lemma PairsLinear(sym: KernelSymmetry, m: seq<real>, a: real, s1: seq<real>, b: real, s2: seq<real>, x: nat, n: nat)
    requires IsMix(m, a, s1, b, s2) && x < |m| && n < |m|
    ensures IsMix(Pairs(sym, m, x, n), a, Pairs(sym, s1, x, n), b, Pairs(sym, s2, x, n))
  {
    forall k | 0 <= k <= n
      ensures Pairs(sym, m, x, n)[k] == a * Pairs(sym, s1, x, n)[k] + b * Pairs(sym, s2, x, n)[k]
    {
      PairLinear(sym, m, a, s1, b, s2, x, k);
    }
  }

  /** `a*u + b*v`. */
  function Mix(a: real, u: real, b: real, v: real): (r: real)
  {
    a * u + b * v
  }

  /** A tap sum is linear in the values it scales. */
  lemma {:induction false} TapSumLinear(kernel: seq<real>, pm: seq<real>, a: real, p1: seq<real>, b: real, p2: seq<real>, n: nat)
    requires IsMix(pm, a, p1, b, p2) && n < |kernel| && n < |pm|
    ensures TapSum(kernel, pm, n) == Mix(a, TapSum(kernel, p1, n), b, TapSum(kernel, p2, n))
  {
    if n > 0 {
      TapSumLinear(kernel, pm, a, p1, b, p2, n - 1);
    }
    assert pm[n] == a * p1[n] + b * p2[n];
  }

  /** The accumulator is linear in the line. */
  lemma AccLinear(sym: KernelSymmetry, m: seq<real>, a: real, s1: seq<real>, b: real, s2: seq<real>,
                  kernel: seq<real>, x: nat, n: nat)
    requires IsMix(m, a, s1, b, s2) && x < |m| && n < |kernel| && n < |m|
    ensures Acc(sym, m, kernel, x, n) == Mix(a, Acc(sym, s1, kernel, x, n), b, Acc(sym, s2, kernel, x, n))
  {
    AccIsPairSum(sym, m, kernel, x, n);
    AccIsPairSum(sym, s1, kernel, x, n);
    AccIsPairSum(sym, s2, kernel, x, n);
    PairsLinear(sym, m, a, s1, b, s2, x, n);
    TapSumLinear(kernel, Pairs(sym, m, x, n), a, Pairs(sym, s1, x, n), b, Pairs(sym, s2, x, n), n);
  }

  /** The row convolution is linear in the line: filtering `a*s1 + b*s2` gives, at every
      index, `a` times the filtered `s1` plus `b` times the filtered `s2`. */
  lemma RefAtLinear(sym: KernelSymmetry, m: seq<real>, a: real, s1: seq<real>, b: real, s2: seq<real>,
                    kernel: seq<real>, radius: nat, x: nat)
    requires IsMix(m, a, s1, b, s2) && radius < |kernel| && LineFits(|m|, radius) && x < |m|
    ensures RefAt(sym, m, kernel, radius, x) == a * RefAt(sym, s1, kernel, radius, x) + b * RefAt(sym, s2, kernel, radius, x)
  {
    AccLinear(sym, m, a, s1, b, s2, kernel, x, radius);
  }

  // ---------------------------------------------------------------------------
  // Independent reference: correlation with the full two-sided kernel over the
  // mirror-padded line.

  /** The full kernel at offset `j` in `(-|kernel|, |kernel|)`. */
  function Weight(sym: KernelSymmetry, kernel: seq<real>, j: int): (r: real)
    requires -|kernel| < j < |kernel|
  {
    if j >= 0 then kernel[j] else MirroredTap(sym, kernel[-j])
  }

  /** The padded sample `x + j` times its weight. */
  function Term(sym: KernelSymmetry, s: seq<real>, kernel: seq<real>, x: nat, j: int): (r: real)
    requires -|kernel| < j < |kernel| && 0 < |s| && -|s| < x + j <= 2 * |s| - 2
  {
    Weight(sym, kernel, j) * s[Reflect(x + j, |s|)]
  }

  predicate WindowFits(s: seq<real>, kernel: seq<real>, x: nat, lo: int, hi: int)
  {
    x < |s| && -|kernel| < lo && hi < |kernel| && -|s| < x + lo && x + hi <= 2 * |s| - 2
  }

  /** `sum_{j=lo..hi} Term(j)`, summed from the left. */
  function Window(sym: KernelSymmetry, s: seq<real>, kernel: seq<real>, x: nat, lo: int, hi: int): (r: real)
    requires WindowFits(s, kernel, x, lo, hi)
    decreases hi - lo
  {
    if lo > hi then 0.0
    else Term(sym, s, kernel, x, lo) + Window(sym, s, kernel, x, lo + 1, hi)
  }

  /** The window may be extended on the right by one term. */
  lemma {:induction false} WindowSnoc(sym: KernelSymmetry, s: seq<real>, kernel: seq<real>, x: nat, lo: int, hi: int)
    requires WindowFits(s, kernel, x, lo, hi + 1) && lo <= hi + 1
    ensures Window(sym, s, kernel, x, lo, hi + 1)
         == Window(sym, s, kernel, x, lo, hi) + Term(sym, s, kernel, x, hi + 1)
    decreases hi - lo
  {
    if lo <= hi {
      WindowSnoc(sym, s, kernel, x, lo + 1, hi);
    }
  }

  /** One side-tap step of the accumulator adds the two mirrored terms of the window. */
  lemma AccStepIsTwoTerms(sym: KernelSymmetry, s: seq<real>, kernel: seq<real>, x: nat, n: nat)
    requires x < |s| && 0 < n < |kernel| && n < |s|
    ensures Acc(sym, s, kernel, x, n)
         == Acc(sym, s, kernel, x, n - 1) + (Term(sym, s, kernel, x, n) + Term(sym, s, kernel, x, -(n as int)))
  {
    var r, l := Reflect(x + n, |s|), Reflect(x - n, |s|);
    FoldsMirroredTaps(sym, kernel[n], s[r], s[l]);
  }

  /** A window symmetric about 0 grows by one term on each side. */
  lemma WindowGrows(sym: KernelSymmetry, s: seq<real>, kernel: seq<real>, x: nat, n: nat)
    requires x < |s| && 0 < n < |kernel| && n < |s|
    ensures Window(sym, s, kernel, x, -(n as int), n)
         == Window(sym, s, kernel, x, -(n as int) + 1, n - 1) + (Term(sym, s, kernel, x, n) + Term(sym, s, kernel, x, -(n as int)))
  {
    WindowSnoc(sym, s, kernel, x, -(n as int) + 1, n - 1);
  }

  /** The one-sided, symmetry-folded accumulator is the two-sided correlation over taps
      `-n..n` of the mirror-padded line. */
  lemma {:induction false} AccIsWindow(sym: KernelSymmetry, s: seq<real>, kernel: seq<real>, x: nat, n: nat)
    requires x < |s| && n < |kernel| && n < |s|
    ensures Acc(sym, s, kernel, x, n) == Window(sym, s, kernel, x, -(n as int), n)
  {
    if n > 0 {
      AccIsWindow(sym, s, kernel, x, n - 1);
      AccStepIsTwoTerms(sym, s, kernel, x, n);
      WindowGrows(sym, s, kernel, x, n);
    }
  }

  /** The reference output is the mirror-padded correlation with the full kernel. */
  lemma RefAtIsMirroredCorrelation(sym: KernelSymmetry, s: seq<real>, kernel: seq<real>, radius: nat, x: nat)
    requires radius < |kernel| && LineFits(|s|, radius) && x < |s|
    ensures RefAt(sym, s, kernel, radius, x) == Window(sym, s, kernel, x, -(radius as int), radius)
  {
    AccIsWindow(sym, s, kernel, x, radius);
  }
}
