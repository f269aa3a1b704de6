/**
 * `standardize` and `unstandardize`: centring a series on its mean and
 * scaling it by its standard deviation, and the inverse affine map. Any
 * operation with a missing operand is missing (NaN propagates).
 */
module Standardization {
  import opened Wrappers
  import opened TimeSeries

  /** `da.mean(dim)`: the mean of the present values; NaN when there is none. */
  function Mean(vs: seq<Value>): (m: Value)
    ensures m.Num? <==> CountPresent(vs) > 0
    ensures m.Num? ==> m.x * (CountPresent(vs) as real) == SumPresent(vs)
  {
    if CountPresent(vs) == 0 then NaN else Num(SumPresent(vs) / (CountPresent(vs) as real))
  }

  /** `(v - mean) / std` on one value. */
  function Centre(v: Value, mean: Value, std: Value): (r: Value)
    requires std != Num(0.0)
    ensures r.Num? <==> v.Num? && mean.Num? && std.Num?
    ensures r.Num? ==> std.x * r.x + mean.x == v.x
  {
    if v.Num? && mean.Num? && std.Num? then Num((v.x - mean.x) / std.x) else NaN
  }

  /** `(std * v) + mean` on one value. */
  function Rescale(v: Value, mean: Value, std: Value): (r: Value)
    ensures r.Num? <==> v.Num? && mean.Num? && std.Num?
    ensures r.Num? && std.x != 0.0 ==> (r.x - mean.x) / std.x == v.x
  {
    if v.Num? && mean.Num? && std.Num? then Num(std.x * v.x + mean.x) else NaN
  }

  /**
   * `standardize(da, mean, std)`: the standardized series and the mean and
   * standard deviation used; the mean is computed when not given.
   */
  function Standardize(vs: seq<Value>, mean: Option<Value>, std: Value): (r: (seq<Value>, Value, Value))
    requires std != Num(0.0)
    ensures |r.0| == |vs| && r.2 == std
    ensures mean.Some? ==> r.1 == mean.value
    ensures mean.None? ==> r.1 == Mean(vs)
    ensures forall i :: 0 <= i < |vs| ==> (r.0[i].Num? <==> vs[i].Num? && r.1.Num? && std.Num?)
  {
    var m := match mean case Some(m) => m case None => Mean(vs);
    (seq(|vs|, i requires 0 <= i < |vs| => Centre(vs[i], m, std)), m, std)
  }

  /** `unstandardize(da, mean, std)`. */
  function Unstandardize(vs: seq<Value>, mean: Value, std: Value): (r: seq<Value>)
    ensures |r| == |vs|
    ensures forall i :: 0 <= i < |vs| ==> (r[i].Num? <==> vs[i].Num? && mean.Num? && std.Num?)
  {
    seq(|vs|, i requires 0 <= i < |vs| => Rescale(vs[i], mean, std))
  }

  /** Rescaling a centred value with the same mean and scale gives the value back. */
  lemma RescaleCentre(x: real, m: real, s: real)
    requires s != 0.0
    ensures Rescale(Centre(Num(x), Num(m), Num(s)), Num(m), Num(s)) == Num(x)
  {
    assert s * ((x - m) / s) + m == x;
  }

  /** The mean given or computed, and a non-zero finite scale, are undone exactly. */
  lemma UnstandardizeStandardize(vs: seq<Value>, mean: Option<Value>, std: real)
    requires std != 0.0
    requires mean.Some? ==> mean.value.Num?
    ensures var (z, m, s) := Standardize(vs, mean, Num(std)); Unstandardize(z, m, s) == vs
  {
    var (z, m, s) := Standardize(vs, mean, Num(std));
    var back := Unstandardize(z, m, s);
    forall i | 0 <= i < |vs| ensures back[i] == vs[i] {
      assert back[i] == Rescale(Centre(vs[i], m, Num(std)), m, Num(std));
      if vs[i].Num? {
        assert m.Num? by {
          if mean.None? {
            assert CountPresent(vs) > 0;
          }
        }
        RescaleCentre(vs[i].x, m.x, std);
      }
    }
  }

  /** The series standardized with a given numeric mean and scale. */
  function Centred(vs: seq<Value>, m: real, s: real): (z: seq<Value>)
    requires s != 0.0
    ensures |z| == |vs|
  {
    seq(|vs|, i requires 0 <= i < |vs| => Centre(vs[i], Num(m), Num(s)))
  }

  /** Each present value moved by `-m`. */
  function Shifted(vs: seq<Value>, m: real): (z: seq<Value>)
    ensures |z| == |vs|
  {
    seq(|vs|, i requires 0 <= i < |vs| => if vs[i].Num? then Num(vs[i].x - m) else NaN)
  }

  /** `m` added `n` times, which keeps the sums below linear. */
  function Times(m: real, n: nat): real {
    if n == 0 then 0.0 else Times(m, n - 1) + m
  }

  lemma {:induction false} TimesIsProduct(m: real, n: nat)
    ensures Times(m, n) == m * (n as real)
  {
    if n > 0 {
      TimesIsProduct(m, n - 1);
      assert m * ((n - 1) as real) + m == m * (n as real);
    }
  }

  /** Shifting every present value by `-m` takes `m` off the sum once per present value. */
  lemma {:induction false} SumShifted(vs: seq<Value>, m: real)
    ensures SumPresent(Shifted(vs, m)) == SumPresent(vs) - Times(m, CountPresent(vs))
    ensures CountPresent(Shifted(vs, m)) == CountPresent(vs)
  {
    if vs != [] {
      var init := vs[..|vs| - 1];
      assert Shifted(vs, m)[..|vs| - 1] == Shifted(init, m);
      SumShifted(init, m);
    }
  }

  /** `f` applied to every present value. */
  function Mapped(vs: seq<Value>, f: real -> real): (z: seq<Value>)
    ensures |z| == |vs|
  {
    seq(|vs|, i requires 0 <= i < |vs| => if vs[i].Num? then Num(f(vs[i].x)) else NaN)
  }

  /** What the last value adds to a sum. */
  function LastTerm(vs: seq<Value>): real
    requires vs != []
  {
    if vs[|vs| - 1].Num? then vs[|vs| - 1].x else 0.0
  }

  /** `f` maps zero to zero and distributes over every step of the running sum of `vs`. */
  predicate AdditiveAlong(vs: seq<Value>, f: real -> real) {
    f(0.0) == 0.0 &&
    (vs == [] ||
     (AdditiveAlong(vs[..|vs| - 1], f) &&
      f(SumPresent(vs[..|vs| - 1]) + LastTerm(vs)) == f(SumPresent(vs[..|vs| - 1])) + f(LastTerm(vs))))
  }

  /** A map additive along a series commutes with summing it. */
  lemma {:induction false} SumMapped(vs: seq<Value>, f: real -> real)
    requires AdditiveAlong(vs, f)
    ensures SumPresent(Mapped(vs, f)) == f(SumPresent(vs))
  {
    if vs != [] {
      var n := |vs| - 1;
      assert Mapped(vs, f)[..n] == Mapped(vs[..n], f);
      SumMapped(vs[..n], f);
    }
  }

  /** Mapping keeps which values are present. */
  lemma {:induction false} CountMapped(vs: seq<Value>, f: real -> real)
    ensures CountPresent(Mapped(vs, f)) == CountPresent(vs)
  {
    if vs != [] {
      var n := |vs| - 1;
      assert Mapped(vs, f)[..n] == Mapped(vs[..n], f);
      CountMapped(vs[..n], f);
    }
  }

  lemma MulAdd(k: real, a: real, x: real)
    ensures k * (a + x) == k * a + k * x
  { }

  /** Multiplying by a constant is additive along any series. */
  lemma {:induction false} ScaleAdditive(vs: seq<Value>, k: real)
    ensures AdditiveAlong(vs, x => k * x)
  {
    assert k * 0.0 == 0.0;
    if vs != [] {
      ScaleAdditive(vs[..|vs| - 1], k);
      MulAdd(k, SumPresent(vs[..|vs| - 1]), LastTerm(vs));
    }
  }

  /** Scaling every present value by `k` scales the sum by `k`. */
  lemma SumScaled(vs: seq<Value>, k: real)
    ensures SumPresent(Mapped(vs, x => k * x)) == k * SumPresent(vs)
  {
    ScaleAdditive(vs, k);
    SumMapped(vs, x => k * x);
  }

  lemma DivIsMul(y: real, s: real)
    requires s != 0.0
    ensures y / s == (1.0 / s) * y
  { }

  /** Standardizing is shifting by the mean, then scaling by the inverse of the scale. */
  lemma CentredIsScaledShift(vs: seq<Value>, m: real, s: real)
    requires s != 0.0
    ensures Centred(vs, m, s) == Mapped(Shifted(vs, m), x => (1.0 / s) * x)
  {
    forall i | 0 <= i < |vs| ensures Centred(vs, m, s)[i] == Mapped(Shifted(vs, m), x => (1.0 / s) * x)[i] {
      if vs[i].Num? {
        DivIsMul(vs[i].x - m, s);
      }
    }
  }

  /** Shifting by a value that is the mean of the present values leaves a sum of zero. */
  lemma ShiftByMeanSumsToZero(vs: seq<Value>, m: real)
    requires CountPresent(vs) > 0 && m == SumPresent(vs) / (CountPresent(vs) as real)
    ensures SumPresent(Shifted(vs, m)) == 0.0
  {
    var a := SumPresent(Shifted(vs, m));
    var c := CountPresent(vs);
    var t := Times(m, c);
    assert a == SumPresent(vs) - t by { SumShifted(vs, m); }
    assert t == SumPresent(vs) by {
      TimesIsProduct(m, c);
      DivMul(SumPresent(vs), c as real);
    }
  }

  lemma ZeroOver(y: real)
    requires y != 0.0
    ensures 0.0 / y == 0.0
  { }

  lemma DivMul(x: real, y: real)
    requires y != 0.0
    ensures (x / y) * y == x
  { }

  /** Centred on the mean of its present values, a series sums to zero and keeps its count. */
  lemma CentredOnMean(vs: seq<Value>, m: real, std: real)
    requires std != 0.0
    requires CountPresent(vs) > 0 && m == SumPresent(vs) / (CountPresent(vs) as real)
    ensures SumPresent(Centred(vs, m, std)) == 0.0
    ensures CountPresent(Centred(vs, m, std)) == CountPresent(vs)
  {
    var k := 1.0 / std;
    var sh := Shifted(vs, m);
    CentredIsScaledShift(vs, m, std);
    assert SumPresent(sh) == 0.0 by { ShiftByMeanSumsToZero(vs, m); }
    assert CountPresent(sh) == CountPresent(vs) by { SumShifted(vs, m); }
    assert SumPresent(Mapped(sh, x => k * x)) == 0.0 by {
      SumScaled(sh, k);
      assert k * 0.0 == 0.0;
    }
    CountMapped(sh, x => k * x);
  }

  /** Standardizing with the series' own mean gives a series whose mean is zero. */
  lemma StandardizedMeanIsZero(vs: seq<Value>, std: real)
    requires std != 0.0 && CountPresent(vs) > 0
    ensures Mean(Standardize(vs, None, Num(std)).0) == Num(0.0)
  {
    var m := Mean(vs).x;
    var z := Standardize(vs, None, Num(std)).0;
    assert z == Centred(vs, m, std);
    CentredOnMean(vs, m, std);
    ZeroOver(CountPresent(z) as real);
  }
}
