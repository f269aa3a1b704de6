/**
 * `jitter_under_thresh` and `jitter_over_thresh`: present values on one side
 * of a threshold are replaced by uniform noise drawn for their position.
 * The noise is an input with one draw per value; the threshold and bound
 * are already in the series' units.
 */
module Jitter {
  import opened TimeSeries

  /** `(x < thresh) & x.notnull()`. */
  predicate Below(v: Value, thresh: real) {
    v.Num? && v.x < thresh
  }

  /** `(x > thresh) & x.notnull()`. */
  predicate Above(v: Value, thresh: real) {
    v.Num? && v.x > thresh
  }

  /** Every draw lies in `[low, high)`, as `uniform(low, high)` promises. */
  predicate DrawnFrom(noise: seq<real>, low: real, high: real) {
    forall i :: 0 <= i < |noise| ==> low <= noise[i] < high
  }

  /** `x.where(~((x < thresh) & x.notnull()), noise)`. */
  function JitterUnderThresh(x: seq<Value>, thresh: real, noise: seq<real>): (out: seq<Value>)
    requires |noise| == |x|
    ensures |out| == |x|
    ensures forall i :: 0 <= i < |x| ==> (out[i].NaN? <==> x[i].NaN?)
    ensures forall i :: 0 <= i < |x| && !Below(x[i], thresh) ==> out[i] == x[i]
    ensures forall i :: 0 <= i < |x| && Below(x[i], thresh) ==> out[i] == Num(noise[i])
  {
    seq(|x|, i requires 0 <= i < |x| => if Below(x[i], thresh) then Num(noise[i]) else x[i])
  }

  /** `x.where(~((x > thresh) & x.notnull()), noise)`. */
  function JitterOverThresh(x: seq<Value>, thresh: real, noise: seq<real>): (out: seq<Value>)
    requires |noise| == |x|
    ensures |out| == |x|
    ensures forall i :: 0 <= i < |x| ==> (out[i].NaN? <==> x[i].NaN?)
    ensures forall i :: 0 <= i < |x| && !Above(x[i], thresh) ==> out[i] == x[i]
    ensures forall i :: 0 <= i < |x| && Above(x[i], thresh) ==> out[i] == Num(noise[i])
  {
    seq(|x|, i requires 0 <= i < |x| => if Above(x[i], thresh) then Num(noise[i]) else x[i])
  }

  /**
   * With noise drawn from `[eps, thresh)`, the same values lie under the
   * threshold before and after, and no present value is left under `eps`.
   */
  lemma JitterUnderBounds(x: seq<Value>, thresh: real, eps: real, noise: seq<real>)
    requires |noise| == |x| && DrawnFrom(noise, eps, thresh)
    ensures var out := JitterUnderThresh(x, thresh, noise);
      forall i :: 0 <= i < |x| ==> (Below(out[i], thresh) <==> Below(x[i], thresh))
    ensures var out := JitterUnderThresh(x, thresh, noise);
      forall i :: 0 <= i < |x| && out[i].Num? ==> out[i].x >= eps
  {
    var out := JitterUnderThresh(x, thresh, noise);
    forall i | 0 <= i < |x| && out[i].Num? ensures out[i].x >= eps {
      assert eps <= noise[i] < thresh;
    }
  }

  /** Number of present values under the threshold. */
  function CountBelow(vs: seq<Value>, thresh: real): (c: nat)
    ensures c <= |vs|
  {
    if vs == [] then 0
    else CountBelow(vs[..|vs| - 1], thresh) + (if Below(vs[|vs| - 1], thresh) then 1 else 0)
  }

  /** Two series that agree on which values lie under the threshold have as many of them. */
  lemma {:induction false} SameBelowSameCount(a: seq<Value>, b: seq<Value>, thresh: real)
    requires |a| == |b|
    requires forall i :: 0 <= i < |a| ==> (Below(a[i], thresh) <==> Below(b[i], thresh))
    ensures CountBelow(a, thresh) == CountBelow(b, thresh)
  {
    if a != [] {
      var n := |a| - 1;
      assert forall i :: 0 <= i < n ==> a[..n][i] == a[i] && b[..n][i] == b[i];
      SameBelowSameCount(a[..n], b[..n], thresh);
    }
  }

  /** Jittering under the threshold keeps the number of values under it. */
  lemma JitterUnderKeepsCount(x: seq<Value>, thresh: real, eps: real, noise: seq<real>)
    requires |noise| == |x| && DrawnFrom(noise, eps, thresh)
    ensures CountBelow(JitterUnderThresh(x, thresh, noise), thresh) == CountBelow(x, thresh)
    ensures CountPresent(JitterUnderThresh(x, thresh, noise)) == CountPresent(x)
  {
    JitterUnderBounds(x, thresh, eps, noise);
    SameBelowSameCount(JitterUnderThresh(x, thresh, noise), x, thresh);
    SamePresentSameCount(JitterUnderThresh(x, thresh, noise), x);
  }

  /** Two series with their missing values at the same positions have as many present values. */
  lemma {:induction false} SamePresentSameCount(a: seq<Value>, b: seq<Value>)
    requires |a| == |b|
    requires forall i :: 0 <= i < |a| ==> (a[i].NaN? <==> b[i].NaN?)
    ensures CountPresent(a) == CountPresent(b)
  {
    if a != [] {
      var n := |a| - 1;
      assert forall i :: 0 <= i < n ==> a[..n][i] == a[i] && b[..n][i] == b[i];
      SamePresentSameCount(a[..n], b[..n]);
    }
  }

  /**
   * With noise drawn from `[thresh, upper)`, nothing comes out above the
   * threshold that was not above it before, and every present value ends
   * under `upper`.
   */
  lemma JitterOverBounds(x: seq<Value>, thresh: real, upper: real, noise: seq<real>)
    requires |noise| == |x| && DrawnFrom(noise, thresh, upper)
    ensures var out := JitterOverThresh(x, thresh, noise);
      forall i :: 0 <= i < |x| && Above(out[i], thresh) ==> Above(x[i], thresh)
    ensures var out := JitterOverThresh(x, thresh, noise);
      forall i :: 0 <= i < |x| && out[i].Num? ==> out[i].x < upper
  {
    var out := JitterOverThresh(x, thresh, noise);
    forall i | 0 <= i < |x| && out[i].Num? ensures out[i].x < upper {
      assert thresh <= noise[i] < upper;
    }
  }

  /** Jittering under a threshold a series with no present value under it changes nothing. */
  lemma JitterUnderNothingBelow(x: seq<Value>, thresh: real, noise: seq<real>)
    requires |noise| == |x|
    requires CountBelow(x, thresh) == 0
    ensures JitterUnderThresh(x, thresh, noise) == x
  {
    forall i | 0 <= i < |x| ensures !Below(x[i], thresh) {
      NoneBelow(x, thresh, i);
    }
  }

  /** A series counting no value under the threshold has none at any position. */
  lemma {:induction false} NoneBelow(vs: seq<Value>, thresh: real, i: nat)
    requires CountBelow(vs, thresh) == 0 && i < |vs|
    ensures !Below(vs[i], thresh)
  {
    var n := |vs| - 1;
    if i < n {
      assert vs[..n][i] == vs[i];
      NoneBelow(vs[..n], thresh, i);
    }
  }
}
