/** A model of the eight-lane single-precision AVX registers the row convolver uses.
    A register is a sequence of eight real lanes; each intrinsic acts lane by lane.
    Loads and stores name the extent `[0, size)` they are allowed to touch, so every
    call site has to show that the access stays inside the line. */
module Avx {
  import opened Symmetry

  /** Number of lanes in one `__m256`. */
  const Width: nat := 8

  /** One `__m256` register. */
  type Vec8 = v: seq<real> | |v| == Width witness [0.0, 0.0, 0.0, 0.0, 0.0, 0.0, 0.0, 0.0]

  /** `_mm256_broadcast_ss`: every lane holds `c`. */
  function Broadcast(c: real): (v: Vec8)
  {
    seq(Width, _ => c)
  }

  /** `_mm256_add_ps`. */
  function AddPs(a: Vec8, b: Vec8): (v: Vec8)
  {
    seq(Width, l requires 0 <= l < Width => a[l] + b[l])
  }

  /** `_mm256_sub_ps`. */
  function SubPs(a: Vec8, b: Vec8): (v: Vec8)
  {
    seq(Width, l requires 0 <= l < Width => a[l] - b[l])
  }

  /** `_mm256_mul_ps`. */
  function MulPs(a: Vec8, b: Vec8): (v: Vec8)
  {
    seq(Width, l requires 0 <= l < Width => a[l] * b[l])
  }

  /** `_mm256_fmadd_ps(a, b, c)`, or its `mul` then `add` fallback: over the reals the
      fused and the unfused forms are the same value `a*b + c`. */
  function FmaddPs(a: Vec8, b: Vec8, c: Vec8): (v: Vec8)
  {
    AddPs(MulPs(a, b), c)
  }

  /** The register overloads of `AddBySymmetry`: they pick the add or the subtract
      intrinsic, and each lane then agrees with the scalar combiner. */
  function AddBySymmetryVec(sym: KernelSymmetry, a: Vec8, b: Vec8): (r: Vec8)
    ensures forall l :: 0 <= l < Width ==> r[l] == AddBySymmetry(sym, a[l], b[l])
  {
    if sym == KernelOdd then SubPs(a, b) else AddPs(a, b)
  }

  /** A scalar read `in[i]`, allowed only inside the line. */
  method Load(a: array<real>, size: nat, i: int) returns (v: real)
    requires size <= a.Length
    requires 0 <= i < size
    ensures v == a[i]
  {
    v := a[i];
  }

  /** `_mm256_loadu_ps(a + p)`: eight consecutive samples, all inside the line. */
  method LoadU(a: array<real>, size: nat, p: int) returns (v: Vec8)
    requires size <= a.Length
    requires 0 <= p && p + Width <= size
    ensures forall l :: 0 <= l < Width ==> v[l] == a[p + l]
  {
    v := a[p..p + Width];
  }

  /** `_mm256_storeu_ps(a + p, v)`: writes lanes to `a[p..p+8)` and nothing else. */
  method StoreU(a: array<real>, size: nat, p: int, v: Vec8)
    requires size <= a.Length
    requires 0 <= p && p + Width <= size
    modifies a
    ensures forall i :: 0 <= i < a.Length ==> a[i] == (if p <= i < p + Width then v[i - p] else old(a[i]))
  {
    var l := 0;
    while l < Width
      invariant 0 <= l <= Width
      invariant forall i :: 0 <= i < a.Length ==> a[i] == (if p <= i < p + l then v[i - p] else old(a[i]))
    {
      a[p + l] := v[l];
      l := l + 1;
    }
  }
}
