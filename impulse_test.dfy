/** The row-filter scenario of `test/test_fastfilters.cxx`: a unit impulse in the middle of
    a line of 21 samples, filtered with the even kernel `[0.4, 0.25, 0.05]` of radius 2,
    reproduces the kernel around the impulse and is zero everywhere else. */
module ImpulseTest {
  import opened Symmetry
  import opened RowReference
  import opened AvxConvolveLine

  const LineLength: nat := 21
  const Centre: nat := LineLength / 2
  const TestKernel: seq<real> := [0.4, 0.25, 0.05]
  const TestRadius: nat := 2

  /** The input line: 1.0 at the centre, 0.0 elsewhere. */
  function Impulse(): (s: seq<real>)
    ensures |s| == LineLength
  {
    seq(LineLength, i => if i == Centre then 1.0 else 0.0)
  }

  /** What the test expects at index `k`: `kernel[|centre - k|]` within the radius, else 0. */
  function Expected(k: nat): (r: real)
  {
    var d := if k <= Centre then Centre - k else k - Centre;
    if d <= TestRadius then TestKernel[d] else 0.0
  }

  /** The reference output of the impulse is the kernel, mirrored around the centre. */
  lemma ImpulseResponse(k: nat)
    requires k < LineLength
    ensures RefAt(KernelEven, Impulse(), TestKernel, TestRadius, k) == Expected(k)
  {
    var s := Impulse();
    ReflectedImpulse(k - 2);
    ReflectedImpulse(k - 1);
    ReflectedImpulse(k + 1);
    ReflectedImpulse(k + 2);
    assert Acc(KernelEven, s, TestKernel, k, 1)
        == TestKernel[0] * s[k] + TestKernel[1] * (s[Reflect(k + 1, |s|)] + s[Reflect(k - 1, |s|)]);
  }

  /** Near the line, a mirrored index hits the impulse only when it is the centre itself. */
  lemma ReflectedImpulse(i: int)
    requires -2 <= i <= LineLength + 1
    ensures Impulse()[Reflect(i, LineLength)] == if i == Centre then 1.0 else 0.0
  {
  }

  /** `testXFilter`: run the row pass on the impulse and compare every output. */
  method ImpulseScenario() returns (res: seq<real>)
    ensures |res| == LineLength
    ensures forall k :: 0 <= k < LineLength ==> res[k] == Expected(k)
  {
    var data := new real[LineLength](i => if i == Centre then 1.0 else 0.0);
    var out := new real[LineLength](i => 0.0);
    var kernel := new real[3](i => TestKernel[if 0 <= i < 3 then i else 0]);
    assert data[..] == Impulse();
    assert kernel[..] == TestKernel;
    var trace := ExecX(KernelEven, data, LineLength, out, kernel, TestRadius);
    assert data[..LineLength] == data[..] == Impulse();
    res := out[..];
    forall k | 0 <= k < LineLength
      ensures res[k] == Expected(k)
    {
      assert res[k] == RefAt(KernelEven, Impulse(), TestKernel, TestRadius, k);
      ImpulseResponse(k);
    }
  }
}
