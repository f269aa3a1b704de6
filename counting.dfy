/**
 * Threshold counting and accumulation: `threshold_count`, `domain_count`,
 * `temperature_sum` and `degree_days`. Results are per resampling period.
 */
module Counting {
  import opened Wrappers
  import opened TimeSeries
  import opened Operators

  /** Number of samples whose value satisfies the comparison (`compare(...) * 1` summed). */
  function CountIf(s: seq<Sample>, op: BinaryOp, t: real): (c: nat)
    ensures c == |set i | 0 <= i < |s| && Holds(op, s[i].value, t)|
    ensures c <= |s|
  {
    if s == [] then 0
    else
      var n := |s| - 1;
      var p := s[..n];
      assert (set i | 0 <= i < |s| && Holds(op, s[i].value, t)) ==
             (set i | 0 <= i < |p| && Holds(op, p[i].value, t)) + (if Holds(op, s[n].value, t) then {n} else {});
      CountIf(p, op, t) + (if Holds(op, s[n].value, t) then 1 else 0)
  }

  /**
   * `threshold_count`: per period, the number of samples satisfying `op`
   * against the threshold. An unknown operator raises ValueError.
   */
  function ThresholdCount(periods: seq<Period>, op: string, t: real): (r: Result<seq<nat>>)
    ensures r.Failure? <==> GetOp(op).Failure?
    ensures r.Success? ==> |r.value| == |periods|
    ensures r.Success? ==> forall k :: 0 <= k < |periods| ==>
      && r.value[k] == |set i | 0 <= i < |periods[k].samples| && Holds(GetOp(op).value, periods[k].samples[i].value, t)|
      && r.value[k] <= |periods[k].samples|
  {
    var o :- GetOp(op);
    Success(seq(|periods|, k requires 0 <= k < |periods| => CountIf(periods[k].samples, o, t)))
  }

  predicate InDomain(v: Value, low: real, high: real) {
    v.Num? && low < v.x <= high
  }

  /** Number of samples with `v > low` and `v <= high`. */
  function CountDomain(s: seq<Sample>, low: real, high: real): (c: nat)
    ensures c == |set i | 0 <= i < |s| && InDomain(s[i].value, low, high)|
  {
    if s == [] then 0
    else
      var n := |s| - 1;
      var p := s[..n];
      var hit := Holds(Gt, s[n].value, low) && Holds(Le, s[n].value, high);
      assert (set i | 0 <= i < |s| && InDomain(s[i].value, low, high)) ==
             (set i | 0 <= i < |p| && InDomain(p[i].value, low, high)) + (if hit then {n} else {});
      CountDomain(p, low, high) + (if hit then 1 else 0)
  }

  /**
   * `domain_count`: per period, the number of samples in the half-open
   * interval (low, high]; NaN samples are never counted.
   */
  function DomainCount(periods: seq<Period>, low: real, high: real): (r: seq<nat>)
    ensures |r| == |periods|
    ensures forall k :: 0 <= k < |periods| ==>
      r[k] == |set i | 0 <= i < |periods[k].samples| && InDomain(periods[k].samples[i].value, low, high)|
  {
    seq(|periods|, k requires 0 <= k < |periods| => CountDomain(periods[k].samples, low, high))
  }

  /** A domain count is the count above `low` minus the count above `high`. */
  lemma {:induction false} DomainCountAsThresholds(s: seq<Sample>, low: real, high: real)
    requires low <= high
    ensures CountDomain(s, low, high) == CountIf(s, Gt, low) - CountIf(s, Gt, high)
  {
    if s != [] {
      var n := |s| - 1;
      DomainCountAsThresholds(s[..n], low, high);
      assert CountDomain(s, low, high) == CountDomain(s[..n], low, high) +
        (if Holds(Gt, s[n].value, low) && Holds(Le, s[n].value, high) then 1 else 0);
      assert CountIf(s, Gt, low) == CountIf(s[..n], Gt, low) + (if Holds(Gt, s[n].value, low) then 1 else 0);
      assert CountIf(s, Gt, high) == CountIf(s[..n], Gt, high) + (if Holds(Gt, s[n].value, high) then 1 else 0);
    }
  }

  /** The straddling example: values low, low + e, high, high + e count 2 (low excluded, high included). */
  lemma DomainCountStraddle(s: seq<Sample>, low: real, high: real, e: real)
    requires 0.0 < e <= high - low
    requires |s| == 4
    requires s[0].value == Num(low) && s[1].value == Num(low + e)
    requires s[2].value == Num(high) && s[3].value == Num(high + e)
    ensures CountDomain(s, low, high) == 2
  {
    assert s[..3][..2][..1][..0] == [];
    assert s[..3][..2][..1] == s[..1] && s[..3][..2] == s[..2];
    assert CountDomain(s[..1], low, high) == 0;
    assert CountDomain(s[..2], low, high) == 1;
    assert CountDomain(s[..3], low, high) == 2;
  }

  // ---------------------------------------------------------------------------
  // temperature_sum

  /** Sum of `v - t` over the numeric samples satisfying `op` (NaN differences are skipped). */
  function SumExcess(s: seq<Sample>, op: BinaryOp, t: real): (r: real)
    ensures op == Gt || op == Ge ==> r >= 0.0
    ensures op == Lt || op == Le ==> r <= 0.0
  {
    if s == [] then 0.0
    else
      var n := |s| - 1;
      SumExcess(s[..n], op, t) +
        (if Holds(op, s[n].value, t) && s[n].value.Num? then s[n].value.x - t else 0.0)
  }

  /** A value equal to the threshold adds `t - t = 0`, so `>=` sums the same excess as `>`. */
  lemma {:induction false} SumExcessGeIsGt(s: seq<Sample>, t: real)
    ensures SumExcess(s, Ge, t) == SumExcess(s, Gt, t)
  {
    if s != [] {
      SumExcessGeIsGt(s[..|s| - 1], t);
    }
  }

  /** Likewise `<=` sums the same excess as `<`. */
  lemma {:induction false} SumExcessLeIsLt(s: seq<Sample>, t: real)
    ensures SumExcess(s, Le, t) == SumExcess(s, Lt, t)
  {
    if s != [] {
      SumExcessLeIsLt(s[..|s| - 1], t);
    }
  }

  /** `direction = -1 if "<" in condition else 1`, decided on the condition's spelling. */
  function Direction(condition: string): (d: real)
    ensures d == -1.0 || d == 1.0
    ensures d == -1.0 <==> '<' in condition
  {
    if '<' in condition then -1.0 else 1.0
  }

  /**
   * `temperature_sum`, as written: per period, the sum of `v - t` over the
   * samples satisfying the condition, negated when the condition string
   * contains "<".
   */
  function TemperatureSum(periods: seq<Period>, t: real, condition: string): (r: Result<seq<real>>)
    ensures r.Failure? <==> GetOp(condition).Failure?
    ensures r.Success? ==> |r.value| == |periods|
    ensures r.Success? ==> forall k :: 0 <= k < |periods| ==>
      r.value[k] == Direction(condition) * SumExcess(periods[k].samples, GetOp(condition).value, t)
    ensures r.Success? && condition in {">", ">=", "<", "<=", "gt", "ge"} ==>
      forall k :: 0 <= k < |periods| ==> r.value[k] >= 0.0
  {
    var o :- GetOp(condition);
    Success(seq(|periods|, k requires 0 <= k < |periods| => Direction(condition) * SumExcess(periods[k].samples, o, t)))
  }

  /**
   * Because the sign is decided on the spelling, the mnemonic "lt" is not
   * negated: one sample at 0 below a threshold of 1 sums to 1 with "<" and
   * to -1 with "lt", although both name the same comparison.
   */
  lemma TemperatureSumMnemonicNotNegated(s: Sample)
    requires s.value == Num(0.0)
    ensures GetOp("<") == GetOp("lt") == Success(Lt)
    ensures TemperatureSum([Period(0, [s])], 1.0, "<") == Success([1.0])
    ensures TemperatureSum([Period(0, [s])], 1.0, "lt") == Success([-1.0])
  {
    GetOpSpellings(Lt);
    assert [s][..0] == [];
    assert SumExcess([s], Lt, 1.0) == -1.0;
    assert '<' in "<" && '<' !in "lt";
    assert Direction("<") == -1.0 && Direction("lt") == 1.0;
    var ps := [Period(0, [s])];
    assert ps[0].samples == [s];
    assert TemperatureSum(ps, 1.0, "<").value[0] == 1.0;
    assert TemperatureSum(ps, 1.0, "lt").value[0] == -1.0;
    assert TemperatureSum(ps, 1.0, "<").value == [1.0];
    assert TemperatureSum(ps, 1.0, "lt").value == [-1.0];
  }

  /** True for the comparisons that select values below the threshold. */
  predicate IsBelow(op: BinaryOp) { op == Lt || op == Le }

  /**
   * `temperature_sum` as its documentation states it: the sum is negated
   * when the comparison selects values below the threshold, whichever
   * spelling names it.
   */
  function TemperatureSumByOp(periods: seq<Period>, t: real, condition: string): (r: Result<seq<real>>)
    ensures r.Failure? <==> GetOp(condition).Failure?
    ensures r.Success? ==> |r.value| == |periods|
    ensures r.Success? ==> forall k :: 0 <= k < |periods| ==>
      r.value[k] == (if IsBelow(GetOp(condition).value) then -1.0 else 1.0) * SumExcess(periods[k].samples, GetOp(condition).value, t)
    ensures r.Success? && GetOp(condition).value in {Gt, Ge, Lt, Le} ==>
      forall k :: 0 <= k < |periods| ==> r.value[k] >= 0.0
  {
    var o :- GetOp(condition);
    var direction := if IsBelow(o) then -1.0 else 1.0;
    Success(seq(|periods|, k requires 0 <= k < |periods| => direction * SumExcess(periods[k].samples, o, t)))
  }

  /** On the documented symbol spellings the corrected sum agrees with the code as written. */
  lemma TemperatureSumAgreesOnSymbols(periods: seq<Period>, t: real, condition: string)
    requires condition in {">", "<", ">=", "<=", "==", "!="}
    ensures TemperatureSumByOp(periods, t, condition) == TemperatureSum(periods, t, condition)
  {
    assert '<' in "<" && '<' in "<=" && '<' !in ">" && '<' !in ">=" && '<' !in "==" && '<' !in "!=";
    if condition == "<" { GetOpSpellings(Lt); }
    else if condition == "<=" { GetOpSpellings(Le); }
    else if condition == ">" { GetOpSpellings(Gt); }
    else if condition == ">=" { GetOpSpellings(Ge); }
    else if condition == "==" { GetOpSpellings(Eq); }
    else { GetOpSpellings(Ne); }
    var o := GetOp(condition).value;
    assert Direction(condition) == if IsBelow(o) then -1.0 else 1.0;
    var a := TemperatureSumByOp(periods, t, condition).value;
    var b := TemperatureSum(periods, t, condition).value;
    assert forall k :: 0 <= k < |periods| ==> a[k] == b[k];
    assert a == b;
  }

  // ---------------------------------------------------------------------------
  // degree_days

  function Max0(x: real): real { if x > 0.0 then x else 0.0 }

  /** `(thresh - tas).clip(0)` */
  function DegreesBelow(tas: seq<Value>, t: real): seq<Value> {
    seq(|tas|, i requires 0 <= i < |tas| => if tas[i].NaN? then NaN else Num(Max0(t - tas[i].x)))
  }

  /** `(tas - thresh).clip(0)` */
  function DegreesAbove(tas: seq<Value>, t: real): seq<Value> {
    seq(|tas|, i requires 0 <= i < |tas| => if tas[i].NaN? then NaN else Num(Max0(tas[i].x - t)))
  }

  /**
   * `degree_days`: per sample, `max(t - v, 0)` when the condition contains
   * "<", otherwise `max(v - t, 0)` when it contains ">"; any other condition
   * raises NotImplementedError. NaN stays NaN.
   */
  function DegreeDays(tas: seq<Value>, t: real, condition: string): (r: Result<seq<Value>>)
    ensures r.Failure? <==> '<' !in condition && '>' !in condition
    ensures r.Failure? ==> r.error.NotImplementedError?
    ensures r.Success? ==> |r.value| == |tas|
    ensures r.Success? ==> forall i :: 0 <= i < |tas| ==>
      (r.value[i].NaN? <==> tas[i].NaN?) && (r.value[i].Num? ==> r.value[i].x >= 0.0)
    ensures r.Success? && '<' in condition ==> forall i :: 0 <= i < |tas| && tas[i].Num? ==>
      r.value[i].x >= t - tas[i].x && (r.value[i].x == 0.0 || r.value[i].x == t - tas[i].x)
    ensures r.Success? && '<' !in condition ==> forall i :: 0 <= i < |tas| && tas[i].Num? ==>
      r.value[i].x >= tas[i].x - t && (r.value[i].x == 0.0 || r.value[i].x == tas[i].x - t)
  {
    if '<' in condition then Success(DegreesBelow(tas, t))
    else if '>' in condition then Success(DegreesAbove(tas, t))
    else Failure(NotImplementedError("Condition not supported: '" + condition + "'."))
  }

  /** Over one period, the degree days above the threshold add up to the temperature sum above it. */
  lemma {:induction false} DegreesAboveSum(s: seq<Sample>, t: real)
    ensures SumPresent(DegreesAbove(Values(s), t)) == SumExcess(s, Gt, t)
  {
    if s != [] {
      var n := |s| - 1;
      DegreesAboveSum(s[..n], t);
      assert DegreesAbove(Values(s), t)[..n] == DegreesAbove(Values(s[..n]), t);
    }
  }

  /** Over one period, the degree days below the threshold add up to the negated temperature sum below it. */
  lemma {:induction false} DegreesBelowSum(s: seq<Sample>, t: real)
    ensures SumPresent(DegreesBelow(Values(s), t)) == -SumExcess(s, Lt, t)
  {
    if s != [] {
      var n := |s| - 1;
      DegreesBelowSum(s[..n], t);
      assert DegreesBelow(Values(s), t)[..n] == DegreesBelow(Values(s[..n]), t);
    }
  }

  /**
   * So `degree_days` summed over each period equals `temperature_sum` for
   * the same threshold and condition, for all four ordering symbols.
   */
  lemma DegreeDaysSumToTemperatureSum(periods: seq<Period>, t: real, condition: string)
    requires condition in {">", ">=", "<", "<="}
    ensures TemperatureSum(periods, t, condition).Success?
    ensures forall k :: 0 <= k < |periods| ==>
      && DegreeDays(Values(periods[k].samples), t, condition).Success?
      && SumPresent(DegreeDays(Values(periods[k].samples), t, condition).value) == TemperatureSum(periods, t, condition).value[k]
  {
    assert '>' in ">" && '>' in ">=" && '<' !in ">" && '<' !in ">=" && '<' in "<" && '<' in "<=";
    if condition == ">" { GetOpSpellings(Gt); }
    else if condition == ">=" { GetOpSpellings(Ge); }
    else if condition == "<" { GetOpSpellings(Lt); }
    else { GetOpSpellings(Le); }
    forall k | 0 <= k < |periods|
      ensures SumPresent(DegreeDays(Values(periods[k].samples), t, condition).value) == TemperatureSum(periods, t, condition).value[k]
    {
      var s := periods[k].samples;
      if '<' in condition {
        DegreesBelowSum(s, t);
        SumExcessLeIsLt(s, t);
      } else {
        DegreesAboveSum(s, t);
        SumExcessGeIsGt(s, t);
      }
    }
  }

  /** For a numeric sample, degree days below minus degree days above is `t - v`. */
  lemma DegreeDaysDifference(tas: seq<Value>, t: real, i: int)
    requires 0 <= i < |tas| && tas[i].Num?
    ensures DegreeDays(tas, t, "<").Success? && DegreeDays(tas, t, ">").Success?
    ensures DegreeDays(tas, t, "<").value[i].x - DegreeDays(tas, t, ">").value[i].x == t - tas[i].x
  {
    assert '>' in ">" && '<' !in ">" && '<' in "<";
  }
}
