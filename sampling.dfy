/** Uniform downsampling, shared by the 2D renderer (`simplifyAndSmoothTrail`)
    and the 3D heart (`simplifyPoints`): keep a sequence that already fits,
    otherwise pick `target` elements at evenly spaced indices. */
module Sampling {

  /** `Math.floor(i * (n / target))`, on exact arithmetic. */
  function SampleIndex(i: nat, n: nat, target: nat): (k: nat)
    requires i < target
    ensures k < n || n == 0
  {
    if n == 0 then 0
    else
      MulStrict(i, target, n);
      DivBelow(i * n, target, n);
      (i * n) / target
  }

  /** `i < t` and `n > 0` give `i * n < t * n`. */
  lemma MulStrict(i: nat, t: nat, n: nat)
    requires i < t && n > 0
    ensures i * n < t * n
  {
    MulMonotone(i + 1, t, n);
    MulSucc(i, n);
  }

  lemma {:induction false} MulMonotone(x: nat, y: nat, n: nat)
    ensures x <= y ==> x * n <= y * n
    decreases n
  {
    if n > 0 {
      MulMonotone(x, y, n - 1);
      assert x * n == x * (n - 1) + x;
      assert y * n == y * (n - 1) + y;
    }
  }

  lemma MulSucc(x: nat, n: nat)
    ensures (x + 1) * n == x * n + n
  {
  }

  /** Something below `t * n` divided by `t` is below `n`. */
  lemma DivBelow(a: nat, t: nat, n: nat)
    requires t > 0 && a < t * n
    ensures a / t < n
  {
    var q := a / t;
    assert a == q * t + a % t;
    MulMonotone(n, q, t);
  }

  function Downsample<T>(s: seq<T>, target: nat): (r: seq<T>)
    ensures |s| <= target ==> r == s
    ensures |s| > target ==> |r| == target
    ensures |s| > target ==> forall i :: 0 <= i < target ==> r[i] == s[SampleIndex(i, |s|, target)]
  {
    if |s| <= target then s
    else seq(target, i requires 0 <= i < target => s[SampleIndex(i, |s|, target)])
  }

  /** Above one element per slot the sampled indices are strictly increasing,
      so the sample keeps the order of the input and repeats no element. */
  lemma SampleIndexStrictlyIncreasing(i: nat, j: nat, n: nat, target: nat)
    requires i < j < target < n
    ensures SampleIndex(i, n, target) < SampleIndex(j, n, target)
  {
    MulMonotone(i + 1, j, n);
    MulSucc(i, n);
    DivStep(i * n, j * n, target);
  }

  /** When `b` exceeds `a` by at least `t`, `b / t` exceeds `a / t`. */
  lemma DivStep(a: nat, b: nat, t: nat)
    requires t > 0 && b >= a + t
    ensures a / t < b / t
  {
    var q, r := a / t, a % t;
    assert a == q * t + r && r < t;
    var q', r' := b / t, b % t;
    assert b == q' * t + r' && r' < t;
    MulMonotone(q', q, t);
  }

  /** The first sample is the first element. */
  lemma FirstSampleIsFirst<T>(s: seq<T>, target: nat)
    requires 0 < target < |s|
    ensures Downsample(s, target)[0] == s[0]
  {
  }

  /** Every sampled element occurs in the input. */
  lemma SampleFromInput<T>(s: seq<T>, target: nat, i: nat)
    requires i < |Downsample(s, target)|
    ensures Downsample(s, target)[i] in s
  {
  }
}
