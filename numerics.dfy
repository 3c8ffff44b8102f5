/** Exact real arithmetic used by both belief maps: left-to-right sums, the
    way the source's loops accumulate them. */
module Numerics {

  /** Sum of `s`, accumulated from the left (the last element is added last). */
  function Sum(s: seq<real>): real
  {
    if s == [] then 0.0 else Sum(s[..|s| - 1]) + s[|s| - 1]
  }

  /** Each element's share of `total` (every element divided by it). */
  function Normalised(cells: seq<real>, total: real): (w: seq<real>)
    requires total != 0.0
    ensures |w| == |cells|
    ensures forall t :: 0 <= t < |cells| ==> w[t] == cells[t] / total
  {
    seq(|cells|, t requires 0 <= t < |cells| => cells[t] / total)
  }

  lemma {:induction false} SumNormalised(cells: seq<real>, total: real)
    requires total != 0.0
    ensures Sum(Normalised(cells, total)) == Sum(cells) / total
    decreases |cells|
  {
    if cells != [] {
      var n := |cells| - 1;
      assert Normalised(cells, total)[..n] == Normalised(cells[..n], total);
      SumNormalised(cells[..n], total);
    }
  }

  /** `n` copies of `v`. */
  function Constant(n: nat, v: real): (r: seq<real>)
    ensures |r| == n
    ensures forall i :: 0 <= i < n ==> r[i] == v
  {
    seq(n, i => v)
  }

  /** `n` equal shares of `k` add up to `k`. */
  lemma UniformMass(n: nat, k: nat)
    requires n > 0
    ensures Sum(Constant(n, k as real / n as real)) == k as real
  {
    SumConstant(n, k as real / n as real);
  }

  ghost predicate NonNegative(s: seq<real>)
  {
    forall i :: 0 <= i < |s| ==> 0.0 <= s[i]
  }

  /** The property of the natural logarithm the entropy code relies on:
      it is not positive on the open unit interval. */
  ghost predicate NonPositiveOnUnit(log: real -> real)
  {
    forall p: real :: 0.0 < p < 1.0 ==> log(p) <= 0.0
  }

  lemma DivSelf(a: real)
    requires a != 0.0
    ensures a / a == 1.0
  {
  }

  /** Sum of the first `k + 1` elements is the sum of the first `k` plus the next one. */
  lemma SumPrefixStep(s: seq<real>, k: nat)
    requires k < |s|
    ensures Sum(s[..k + 1]) == Sum(s[..k]) + s[k]
  {
    assert s[..k + 1][..k] == s[..k];
  }

  lemma {:induction false} SumConstant(n: nat, v: real)
    ensures Sum(Constant(n, v)) == n as real * v
  {
    if n > 0 {
      assert Constant(n, v)[..n - 1] == Constant(n - 1, v);
      SumConstant(n - 1, v);
    }
  }

  /** Adding one to one element adds one to the sum. */
  lemma {:induction false} SumIncrement(s: seq<real>, m: nat)
    requires m < |s|
    ensures Sum(s[m := s[m] + 1.0]) == Sum(s) + 1.0
    decreases |s|
  {
    var t := s[m := s[m] + 1.0];
    var n := |s| - 1;
    if m == n {
      assert t[..n] == s[..n];
    } else {
      assert t[..n] == s[..n][m := s[m] + 1.0];
      SumIncrement(s[..n], m);
    }
  }

  /** The number of set positions of `mask`. */
  function MaskCount(mask: seq<bool>): (c: nat)
    ensures c <= |mask|
  {
    if mask == [] then 0 else MaskCount(mask[..|mask| - 1]) + (if mask[|mask| - 1] then 1 else 0)
  }

  lemma MaskCountStep(mask: seq<bool>, k: nat)
    requires k < |mask|
    ensures MaskCount(mask[..k + 1]) == MaskCount(mask[..k]) + (if mask[k] then 1 else 0)
  {
    assert mask[..k + 1][..k] == mask[..k];
  }

  /** `a` at the set positions of `mask` and `b` at the others. */
  function Rates(mask: seq<bool>, a: real, b: real): (s: seq<real>)
    ensures |s| == |mask|
    ensures forall i :: 0 <= i < |mask| ==> s[i] == if mask[i] then a else b
  {
    seq(|mask|, i requires 0 <= i < |mask| => if mask[i] then a else b)
  }

  /** `a` added up `n` times. */
  function Times(n: nat, a: real): real
  {
    if n == 0 then 0.0 else Times(n - 1, a) + a
  }

  lemma {:induction false} TimesProduct(n: nat, a: real)
    ensures Times(n, a) == n as real * a
  {
    if n > 0 {
      TimesProduct(n - 1, a);
      assert n as real * a == (n - 1) as real * a + a;
    }
  }

  /** `n` shares of `x` make up `x`. */
  lemma TimesShare(n: nat, x: real)
    requires n > 0
    ensures Times(n, x / n as real) == x
  {
    TimesProduct(n, x / n as real);
  }

  /** The set positions contribute `a` each and the others `b` each. */
  lemma {:induction false} SumRates(mask: seq<bool>, a: real, b: real)
    ensures Sum(Rates(mask, a, b)) == Times(MaskCount(mask), a) + Times(|mask| - MaskCount(mask), b)
    decreases |mask|
  {
    if mask != [] {
      var n := |mask| - 1;
      assert Rates(mask, a, b)[..n] == Rates(mask[..n], a, b);
      SumRates(mask[..n], a, b);
    }
  }

  /** The element-wise mean of `x` and `y`. */
  function Mean(x: seq<real>, y: seq<real>): (r: seq<real>)
    requires |x| == |y|
    ensures |r| == |x|
    ensures forall i :: 0 <= i < |x| ==> r[i] == 0.5 * x[i] + 0.5 * y[i]
  {
    seq(|x|, i requires 0 <= i < |x| => 0.5 * x[i] + 0.5 * y[i])
  }

  lemma {:induction false} SumMean(x: seq<real>, y: seq<real>)
    requires |x| == |y|
    ensures Sum(Mean(x, y)) == 0.5 * Sum(x) + 0.5 * Sum(y)
    decreases |x|
  {
    if x != [] {
      var n := |x| - 1;
      assert Mean(x, y)[..n] == Mean(x[..n], y[..n]);
      SumMean(x[..n], y[..n]);
    }
  }
}
