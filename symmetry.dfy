/** The symmetry combiner of a separable filter kernel.
    A kernel stores its centre tap and one side only; the symmetry kind says how the
    coefficient of the mirrored tap is rebuilt from the stored one, and so whether two
    mirrored samples are added or subtracted before they are scaled by the shared tap. */
module Symmetry {

  /** The three kinds declared by the library. */
  datatype KernelSymmetry = KernelEven | KernelOdd | KernelNotSymmetric

  /** `AddBySymmetry<SYMMETRY>` on one sample pair: the primary template adds (it is used
      for every kind except `KernelOdd`), the `KernelOdd` specialisation subtracts. */
  function AddBySymmetry(sym: KernelSymmetry, a: real, b: real): (r: real)
  {
    if sym == KernelOdd then a - b else a + b
  }

  /** The coefficient of tap `-k` that the symmetry rebuilds from the stored tap `k`. */
  function MirroredTap(sym: KernelSymmetry, c: real): (r: real)
  {
    if sym == KernelOdd then -c else c
  }

  /** Combining first and multiplying once is the same as weighting both mirrored
      samples with their own taps: `c*a + c'*b == c * combine(a, b)`. */
  lemma FoldsMirroredTaps(sym: KernelSymmetry, c: real, a: real, b: real)
    ensures c * AddBySymmetry(sym, a, b) == c * a + MirroredTap(sym, c) * b
  {
  }
}
