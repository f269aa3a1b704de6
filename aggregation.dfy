/**
 * `aggregate_between_dates`: per resampling period, reduce the samples lying
 * between a start and an end bound, each bound given either as a "%m-%d"
 * day-of-year string or as an array of days since each period's base time.
 */
module Aggregation {
  import opened Wrappers
  import opened TimeSeries

  /** The reduction applied to the masked period: the operator name looked up on the array. */
  datatype Reducer = Sum | Min | Max | Mean

  /**
   * A bound. `DaysSince` holds the bound array after its conversion to days
   * since the period start, indexed by period base time, together with the
   * frequency the array library infers from its time axis (None when it
   * cannot infer one).
   */
  datatype Bound = DayOfYearStr(md: string) | DaysSince(days: map<int, Value>, freq: Option<string>)

  /** The frequency inferred from a bound; a string has no time axis, so it gives None. */
  function BoundFreq(b: Bound): (f: Option<string>)
    ensures b.DayOfYearStr? ==> f.None?
    ensures b.DaysSince? ==> f == b.freq
  {
    match b
    case DayOfYearStr(_) => None
    case DaysSince(_, f) => f
  }

  /**
   * The resampling frequency the two bounds agree on: there must be exactly
   * one distinct frequency among those inferred.
   */
  function InferredFreq(a: Option<string>, b: Option<string>): (r: Result<string>)
    ensures r.Success? <==> (a.Some? || b.Some?) && (a.Some? && b.Some? ==> a.value == b.value)
    ensures r.Success? ==> a == Some(r.value) || b == Some(r.value)
    ensures r.Success? ==> (a.Some? ==> a.value == r.value) && (b.Some? ==> b.value == r.value)
    ensures r.Failure? ==> r.error.ValueError?
  {
    var good := (if a.Some? then {a.value} else {}) + (if b.Some? then {b.value} else {});
    if a.Some? && b.Some? && a.value != b.value then
      assert a.value in good && b.value in good;
      Failure(ValueError("Non-inferrable resampling frequency or inconsistent frequencies."))
    else if a.Some? then Success(a.value)
    else if b.Some? then Success(b.value)
    else Failure(ValueError("Non-inferrable resampling frequency or inconsistent frequencies."))
  }

  /**
   * The inference loop of `aggregate_between_dates`: collect the frequency
   * of each bound, drop the missing ones, and demand a single one remains.
   */
  method InferFrequency(start: Bound, end: Bound) returns (r: Result<string>)
    ensures r == InferredFreq(BoundFreq(start), BoundFreq(end))
  {
    var bounds := [start, end];
    var frequencies: seq<Option<string>> := [];
    for i := 0 to |bounds|
      invariant |frequencies| == i
      invariant forall j :: 0 <= j < i ==> frequencies[j] == BoundFreq(bounds[j])
    {
      frequencies := frequencies + [BoundFreq(bounds[i])];
    }
    var good := set j | 0 <= j < |frequencies| && frequencies[j].Some? :: frequencies[j].value;
    var a, b := BoundFreq(start), BoundFreq(end);
    assert frequencies == [a, b];
    GoodFreqs(frequencies, good, a, b);
    DistinctFreqsSingleton(a, b);
    if |good| != 1 {
      return Failure(ValueError("Non-inferrable resampling frequency or inconsistent frequencies."));
    }
    var f :| f in good;
    r := Success(f);
  }

  /** The set of frequencies inferred, with the missing ones dropped. */
  function DistinctFreqs(a: Option<string>, b: Option<string>): set<string> {
    (if a.Some? then {a.value} else {}) + (if b.Some? then {b.value} else {})
  }

  /** The set the loop builds is the set of inferred frequencies. */
  lemma GoodFreqs(frequencies: seq<Option<string>>, good: set<string>, a: Option<string>, b: Option<string>)
    requires frequencies == [a, b]
    requires good == set j | 0 <= j < |frequencies| && frequencies[j].Some? :: frequencies[j].value
    ensures good == DistinctFreqs(a, b)
  {
    forall f | f in DistinctFreqs(a, b) ensures f in good {
      if a == Some(f) {
        assert frequencies[0].Some? && frequencies[0].value == f;
      } else {
        assert frequencies[1].Some? && frequencies[1].value == f;
      }
    }
  }

  /** Inference succeeds exactly when one distinct frequency remains, and returns it. */
  lemma DistinctFreqsSingleton(a: Option<string>, b: Option<string>)
    ensures |DistinctFreqs(a, b)| == 1 <==> InferredFreq(a, b).Success?
    ensures InferredFreq(a, b).Success? ==> DistinctFreqs(a, b) == {InferredFreq(a, b).value}
  {
    if a.Some? && b.Some? && a.value != b.value {
      assert DistinctFreqs(a, b) == {a.value, b.value};
    } else if a.Some? && b.Some? {
      assert DistinctFreqs(a, b) == {a.value};
    }
  }

  /** The index of the first sample whose month-day is `md`, if any (`index_of_date` with one match). */
  function FirstMatch(g: seq<Sample>, md: string): (r: Option<nat>)
    ensures r.Some? ==> r.value < |g| && g[r.value].monthDay == md
    ensures r.Some? ==> forall j :: 0 <= j < r.value ==> g[j].monthDay != md
    ensures r.None? <==> forall j :: 0 <= j < |g| ==> g[j].monthDay != md
  {
    if g == [] then None
    else if g[0].monthDay == md then Some(0)
    else match FirstMatch(g[1..], md)
      case None => None
      case Some(i) => Some(i + 1)
  }

  /**
   * The number of samples on the month-day `md`. `index_of_date` with
   * `max_idxs=1` raises ValueError when it is more than one.
   */
  function MatchCount(g: seq<Sample>, md: string): (c: nat)
    ensures c <= |g|
    ensures c == 0 <==> forall j :: 0 <= j < |g| ==> g[j].monthDay != md
  {
    if g == [] then 0 else (if g[0].monthDay == md then 1 else 0) + MatchCount(g[1..], md)
  }

  /** With exactly one match, the first match is the only sample on that month-day. */
  lemma {:induction false} OnlyMatch(g: seq<Sample>, md: string)
    requires MatchCount(g, md) == 1
    ensures FirstMatch(g, md).Some?
    ensures forall j :: 0 <= j < |g| && g[j].monthDay == md ==> j == FirstMatch(g, md).value
  {
    if g[0].monthDay != md {
      OnlyMatch(g[1..], md);
      forall j | 0 <= j < |g| && g[j].monthDay == md ensures j == FirstMatch(g, md).value {
        assert j > 0 && g[1..][j - 1] == g[j];
      }
    } else {
      forall j | 0 < j < |g| ensures g[j].monthDay != md {
        assert g[1..][j - 1] == g[j];
      }
    }
  }

  /** A string bound matched by more than one sample of the period: `_get_days` raises ValueError. */
  predicate Ambiguous(b: Bound, g: seq<Sample>) {
    b.DayOfYearStr? && MatchCount(g, b.md) > 1
  }

  const AmbiguousDate := ValueError("More than 1 instance of date found in the coordinate array.")

  /**
   * `_get_days`: a string bound is the number of days from the period's first
   * sample to its first sample on that month-day; an array bound is its
   * value at the period's base time. None when there is no such sample or
   * the array has no entry for the base time.
   */
  function GetDays(b: Bound, g: seq<Sample>, base: int): (r: Option<Value>)
    ensures b.DayOfYearStr? ==> (r.None? <==> forall j :: 0 <= j < |g| ==> g[j].monthDay != b.md)
    ensures b.DayOfYearStr? && r.Some? ==>
      FirstMatch(g, b.md).Some? && r.value == Num((g[FirstMatch(g, b.md).value].time - g[0].time) as real)
    ensures b.DaysSince? ==> (r.Some? <==> base in b.days) && (r.Some? ==> r.value == b.days[base])
  {
    match b
    case DayOfYearStr(md) =>
      (match FirstMatch(g, md)
       case None => None
       case Some(i) => Some(Num((g[i].time - g[0].time) as real)))
    case DaysSince(days, _) => if base in days then Some(days[base]) else None
  }

  /** Days since the base time of each sample; negative ones become NaN. */
  function DaysFromBase(g: seq<Sample>, base: int): (ds: seq<Value>)
    ensures |ds| == |g|
    ensures forall i :: 0 <= i < |g| ==>
      (ds[i].NaN? <==> g[i].time < base) && (ds[i].Num? ==> ds[i].x == (g[i].time - base) as real)
  {
    seq(|g|, i requires 0 <= i < |g| => if g[i].time - base < 0 then NaN else Num((g[i].time - base) as real))
  }

  /** `(days >= start_d) & (days <= end_d - 1)`; false for NaN days. */
  predicate InWindow(d: Value, sd: real, ed: real) {
    d.Num? && sd <= d.x && d.x <= ed - 1.0
  }

  /** The period's values with everything outside the window replaced by NaN (`where`). */
  function Masked(g: seq<Sample>, days: seq<Value>, sd: real, ed: real): (m: seq<Value>)
    requires |days| == |g|
    ensures |m| == |g|
  {
    seq(|g|, i requires 0 <= i < |g| => if InWindow(days[i], sd, ed) then g[i].value else NaN)
  }

  /** Inside the window a value is kept; a value kept as a number lies inside the window. */
  lemma MaskedValues(g: seq<Sample>, days: seq<Value>, sd: real, ed: real)
    requires |days| == |g|
    ensures forall i :: 0 <= i < |g| ==>
      && (InWindow(days[i], sd, ed) ==> Masked(g, days, sd, ed)[i] == g[i].value)
      && (!InWindow(days[i], sd, ed) ==> Masked(g, days, sd, ed)[i] == NaN)
  {
  }

  /** The largest numeric value, NaN when there is none (`max(skipna=True)`). */
  function MaxPresent(vs: seq<Value>): (m: Value)
    ensures m.NaN? <==> forall i :: 0 <= i < |vs| ==> vs[i].NaN?
    ensures m.Num? ==> forall i :: 0 <= i < |vs| && vs[i].Num? ==> vs[i].x <= m.x
    ensures m.Num? ==> exists i :: 0 <= i < |vs| && vs[i] == m
  {
    if vs == [] then NaN
    else
      var n := |vs| - 1;
      var rest := MaxPresent(vs[..n]);
      if vs[n].NaN? then rest
      else if rest.NaN? || rest.x < vs[n].x then vs[n]
      else rest
  }

  /** The smallest numeric value, NaN when there is none (`min(skipna=True)`). */
  function MinPresent(vs: seq<Value>): (m: Value)
    ensures m.NaN? <==> forall i :: 0 <= i < |vs| ==> vs[i].NaN?
    ensures m.Num? ==> forall i :: 0 <= i < |vs| && vs[i].Num? ==> m.x <= vs[i].x
    ensures m.Num? ==> exists i :: 0 <= i < |vs| && vs[i] == m
  {
    if vs == [] then NaN
    else
      var n := |vs| - 1;
      var rest := MinPresent(vs[..n]);
      if vs[n].NaN? then rest
      else if rest.NaN? || vs[n].x < rest.x then vs[n]
      else rest
  }

  /** The reduction with NaN skipped: sum of nothing is 0, min, max and mean of nothing are NaN. */
  function Reduce(op: Reducer, vs: seq<Value>): (r: Value)
    ensures op == Sum ==> r.Num?
    ensures op != Sum ==> (r.NaN? <==> CountPresent(vs) == 0)
  {
    match op
    case Sum => Num(SumPresent(vs))
    case Min => MinPresent(vs)
    case Max => MaxPresent(vs)
    case Mean => if CountPresent(vs) == 0 then NaN else Num(SumPresent(vs) / CountPresent(vs) as real)
  }

  /**
   * One period of `aggregate_between_dates`. A missing bound gives NaN (an
   * empty period then has no first sample to shape the NaN from); a NaN
   * bound, or a start after the end, gives NaN; otherwise the reduction of
   * the samples whose day offset from the base time lies in
   * [start, end - 1].
   */
  function PeriodAggregate(p: Period, start: Bound, end: Bound, op: Reducer): (r: Result<Value>)
    ensures r.Failure? ==> r.error == IndexError || r.error == AmbiguousDate
  {
    var sd := GetDays(start, p.samples, p.base);
    var ed := GetDays(end, p.samples, p.base);
    if Ambiguous(start, p.samples) || Ambiguous(end, p.samples) then Failure(AmbiguousDate)
    else if sd.None? || ed.None? then
      if p.samples == [] then Failure(IndexError) else Success(NaN)
    else if sd.value.NaN? || ed.value.NaN? || sd.value.x > ed.value.x then Success(NaN)
    else Success(Reduce(op, Masked(p.samples, DaysFromBase(p.samples, p.base), sd.value.x, ed.value.x)))
  }

  /**
   * The error and NaN cases of one period: an ambiguous string bound is
   * ValueError, a missing bound on an empty period IndexError; a missing
   * bound otherwise, a NaN bound or a start after the end give NaN.
   */
  lemma PeriodAggregateCases(p: Period, start: Bound, end: Bound, op: Reducer)
    ensures var r := PeriodAggregate(p, start, end, op);
      var amb := Ambiguous(start, p.samples) || Ambiguous(end, p.samples);
      var sd, ed := GetDays(start, p.samples, p.base), GetDays(end, p.samples, p.base);
      && (amb ==> r == Failure(AmbiguousDate))
      && (r.Failure? <==> amb || ((sd.None? || ed.None?) && p.samples == []))
      && (r.Failure? && !amb ==> r.error == IndexError)
      && (!amb && (sd.None? || ed.None?) && p.samples != [] ==> r == Success(NaN))
      && (!amb && sd.Some? && ed.Some? && (sd.value.NaN? || ed.value.NaN? || sd.value.x > ed.value.x) ==> r == Success(NaN))
  {
  }

  /** `days = (group.time - base_time).dt.days; days[days < 0] = nan`, the second step in place. */
  method DaysSinceBase(group: seq<Sample>, base: int) returns (days: array<Value>)
    ensures fresh(days)
    ensures days[..] == DaysFromBase(group, base)
  {
    days := new Value[|group|](i requires 0 <= i < |group| => Num((group[i].time - base) as real));
    for i := 0 to days.Length
      invariant forall j :: 0 <= j < i ==> days[j] == DaysFromBase(group, base)[j]
      invariant forall j :: i <= j < days.Length ==> days[j] == Num((group[j].time - base) as real)
    {
      if days[i].x < 0.0 {
        days[i] := NaN;
      }
    }
  }

  /** The body of the period loop of `aggregate_between_dates`. */
  method AggregatePeriod(p: Period, start: Bound, end: Bound, op: Reducer) returns (r: Result<Value>)
    ensures r == PeriodAggregate(p, start, end, op)
  {
    var group := p.samples;
    if Ambiguous(start, group) || Ambiguous(end, group) {
      return Failure(AmbiguousDate);
    }
    var startD := GetDays(start, group, p.base);
    var endD := GetDays(end, group, p.base);
    if startD.Some? && endD.Some? {
      var days := DaysSinceBase(group, p.base);
      var res := Reduce(op, Masked(group, days[..], if startD.value.Num? then startD.value.x else 0.0,
                                                  if endD.value.Num? then endD.value.x else 0.0));
      if startD.value.NaN? || endD.value.NaN? || startD.value.x > endD.value.x {
        res := NaN;
      }
      r := Success(res);
    } else if group == [] {
      r := Failure(IndexError);
    } else {
      r := Success(NaN);
    }
  }

  /** `xr.concat` of an empty list of results. */
  const NothingToConcat := ValueError("must supply at least one object to concatenate")

  /** The frequency used: the given one, or else the one inferred from the bounds. */
  function ChosenFreq(freq: Option<string>, start: Bound, end: Bound): Result<string> {
    if freq.Some? then Success(freq.value) else InferredFreq(BoundFreq(start), BoundFreq(end))
  }

  /**
   * `aggregate_between_dates`. `resample` gives the periods of the series
   * for a frequency. The result pairs each period's base time with its
   * aggregate, in period order.
   */
  method AggregateBetweenDates(resample: string -> seq<Period>, start: Bound, end: Bound, op: Reducer, freq: Option<string>)
    returns (r: Result<seq<(int, Value)>>)
    ensures ChosenFreq(freq, start, end).Failure? ==> r == Failure(ChosenFreq(freq, start, end).error)
    ensures ChosenFreq(freq, start, end).Success? ==>
      var ps := resample(ChosenFreq(freq, start, end).value);
      && (|ps| == 0 ==> r == Failure(NothingToConcat))
      && (r.Success? <==> |ps| > 0 && forall k :: 0 <= k < |ps| ==> PeriodAggregate(ps[k], start, end, op).Success?)
      && (r.Failure? && |ps| > 0 ==>
            exists k :: 0 <= k < |ps| && PeriodAggregate(ps[k], start, end, op).Failure? &&
              r.error == PeriodAggregate(ps[k], start, end, op).error &&
              forall j :: 0 <= j < k ==> PeriodAggregate(ps[j], start, end, op).Success?)
      && (r.Success? ==> |r.value| == |ps| && forall k :: 0 <= k < |ps| ==>
            r.value[k] == (ps[k].base, PeriodAggregate(ps[k], start, end, op).value))
  {
    var f: string;
    if freq.None? {
      var inferred := InferFrequency(start, end);
      if inferred.Failure? {
        return Failure(inferred.error);
      }
      f := inferred.value;
    } else {
      f := freq.value;
    }
    var periods := resample(f);
    assert ChosenFreq(freq, start, end) == Success(f) && periods == resample(ChosenFreq(freq, start, end).value);
    var out: seq<(int, Value)> := [];
    for k := 0 to |periods|
      invariant |out| == k && ChosenFreq(freq, start, end) == Success(f)
      invariant forall j :: 0 <= j < k ==> out[j].0 == periods[j].base && PeriodAggregate(periods[j], start, end, op) == Success(out[j].1)
    {
      var res := AggregatePeriod(periods[k], start, end, op);
      if res.Failure? {
        assert |periods| > 0 && PeriodAggregate(periods[k], start, end, op) == res;
        return Failure(res.error);
      }
      out := out + [(periods[k].base, res.value)];
    }
    if |out| == 0 {
      return Failure(NothingToConcat);
    }
    r := Success(out);
  }

  // ---------------------------------------------------------------------------
  // Properties of one period

  /** The maximum over the window bounds every numeric window sample and is one of them. */
  lemma MaxOfWindow(p: Period, start: Bound, end: Bound, m: real)
    requires PeriodAggregate(p, start, end, Max) == Success(Num(m))
    ensures GetDays(start, p.samples, p.base).Some? && GetDays(end, p.samples, p.base).Some?
    ensures var sd, ed := GetDays(start, p.samples, p.base).value, GetDays(end, p.samples, p.base).value;
      && sd.Num? && ed.Num? && sd.x <= ed.x
      && (forall i :: 0 <= i < |p.samples| && InWindow(DaysFromBase(p.samples, p.base)[i], sd.x, ed.x) && p.samples[i].value.Num? ==>
            p.samples[i].value.x <= m)
      && (exists i :: 0 <= i < |p.samples| && InWindow(DaysFromBase(p.samples, p.base)[i], sd.x, ed.x) &&
            p.samples[i].value == Num(m))
  {
    var sd, ed := GetDays(start, p.samples, p.base).value, GetDays(end, p.samples, p.base).value;
    var ds := DaysFromBase(p.samples, p.base);
    var ms := Masked(p.samples, ds, sd.x, ed.x);
    assert MaxPresent(ms) == Num(m);
    forall i | 0 <= i < |p.samples| && InWindow(ds[i], sd.x, ed.x) && p.samples[i].value.Num?
      ensures p.samples[i].value.x <= m
    {
      assert ms[i] == p.samples[i].value;
    }
    var i :| 0 <= i < |ms| && ms[i] == Num(m);
    assert InWindow(ds[i], sd.x, ed.x) && p.samples[i].value == Num(m);
  }

  /** A sum of all-NaN values is 0. */
  lemma {:induction false} SumOfNothing(vs: seq<Value>)
    requires forall i :: 0 <= i < |vs| ==> vs[i].NaN?
    ensures SumPresent(vs) == 0.0
  {
    if vs != [] {
      SumOfNothing(vs[..|vs| - 1]);
    }
  }

  /**
   * Equal start and end leave an empty window (its last day is `end - 1`):
   * the sum is 0 and the other reductions are NaN, not the NaN of a reversed
   * pair.
   */
  lemma EqualBoundsEmptyWindow(p: Period, start: Bound, end: Bound, op: Reducer)
    requires GetDays(start, p.samples, p.base).Some? && GetDays(start, p.samples, p.base).value.Num?
    requires GetDays(start, p.samples, p.base) == GetDays(end, p.samples, p.base)
    requires !Ambiguous(start, p.samples) && !Ambiguous(end, p.samples)
    ensures PeriodAggregate(p, start, end, op) == Success(if op == Sum then Num(0.0) else NaN)
  {
    var d := GetDays(start, p.samples, p.base).value.x;
    var ms := Masked(p.samples, DaysFromBase(p.samples, p.base), d, d);
    assert forall i :: 0 <= i < |ms| ==> ms[i].NaN?;
    SumOfNothing(ms);
  }

  /**
   * Samples outside the window do not matter: two periods with the same
   * base, times and month-days, whose values agree inside the window,
   * aggregate to the same result.
   */
  lemma OutsideWindowIgnored(p: Period, q: Period, start: Bound, end: Bound, op: Reducer)
    requires p.base == q.base && |p.samples| == |q.samples|
    requires forall i :: 0 <= i < |p.samples| ==>
      p.samples[i].time == q.samples[i].time && p.samples[i].monthDay == q.samples[i].monthDay
    requires var sd, ed := GetDays(start, p.samples, p.base), GetDays(end, p.samples, p.base);
      sd.Some? && ed.Some? && sd.value.Num? && ed.value.Num? ==>
      forall i :: 0 <= i < |p.samples| && InWindow(DaysFromBase(p.samples, p.base)[i], sd.value.x, ed.value.x) ==>
        p.samples[i].value == q.samples[i].value
    ensures PeriodAggregate(p, start, end, op) == PeriodAggregate(q, start, end, op)
  {
    GetDaysSameCalendar(p.samples, q.samples, p.base, start);
    GetDaysSameCalendar(p.samples, q.samples, p.base, end);
    MatchCountSameCalendar(p.samples, q.samples, start);
    MatchCountSameCalendar(p.samples, q.samples, end);
    var sd, ed := GetDays(start, p.samples, p.base), GetDays(end, p.samples, p.base);
    if sd.Some? && ed.Some? && sd.value.Num? && ed.value.Num? {
      MaskedAgree(p.samples, q.samples, p.base, sd.value.x, ed.value.x);
    }
    SameInputsSameAggregate(p, q, start, end, op);
  }

  /** A period's aggregate is fixed by the ambiguity and days of its bounds and by its mask. */
  lemma SameInputsSameAggregate(p: Period, q: Period, start: Bound, end: Bound, op: Reducer)
    requires p.base == q.base && |p.samples| == |q.samples|
    requires Ambiguous(start, p.samples) == Ambiguous(start, q.samples)
    requires Ambiguous(end, p.samples) == Ambiguous(end, q.samples)
    requires GetDays(start, p.samples, p.base) == GetDays(start, q.samples, q.base)
    requires GetDays(end, p.samples, p.base) == GetDays(end, q.samples, q.base)
    requires var sd, ed := GetDays(start, p.samples, p.base), GetDays(end, p.samples, p.base);
      sd.Some? && ed.Some? && sd.value.Num? && ed.value.Num? ==>
      Masked(p.samples, DaysFromBase(p.samples, p.base), sd.value.x, ed.value.x) ==
      Masked(q.samples, DaysFromBase(q.samples, q.base), sd.value.x, ed.value.x)
    ensures PeriodAggregate(p, start, end, op) == PeriodAggregate(q, start, end, op)
  {
  }

  /** The masks of two such sample sequences are equal. */
  lemma MaskedAgree(g: seq<Sample>, h: seq<Sample>, base: int, sd: real, ed: real)
    requires |g| == |h|
    requires forall i :: 0 <= i < |g| ==> g[i].time == h[i].time
    requires forall i :: 0 <= i < |g| && InWindow(DaysFromBase(g, base)[i], sd, ed) ==> g[i].value == h[i].value
    ensures Masked(g, DaysFromBase(g, base), sd, ed) == Masked(h, DaysFromBase(h, base), sd, ed)
  {
    var mg, mh := Masked(g, DaysFromBase(g, base), sd, ed), Masked(h, DaysFromBase(h, base), sd, ed);
    forall i | 0 <= i < |g| ensures mg[i] == mh[i] {
      assert DaysFromBase(g, base)[i] == DaysFromBase(h, base)[i];
    }
  }

  /** The bound offsets depend only on the times and month-days of the samples. */
  lemma GetDaysSameCalendar(g: seq<Sample>, h: seq<Sample>, base: int, b: Bound)
    requires |g| == |h|
    requires forall i :: 0 <= i < |g| ==> g[i].time == h[i].time && g[i].monthDay == h[i].monthDay
    ensures GetDays(b, g, base) == GetDays(b, h, base)
  {
    if b.DayOfYearStr? {
      FirstMatchSameCalendar(g, h, b.md);
    }
  }

  /** Whether a bound is ambiguous depends only on the month-days of the samples. */
  lemma MatchCountSameCalendar(g: seq<Sample>, h: seq<Sample>, b: Bound)
    requires |g| == |h|
    requires forall i :: 0 <= i < |g| ==> g[i].monthDay == h[i].monthDay
    ensures Ambiguous(b, g) == Ambiguous(b, h)
  {
    if b.DayOfYearStr? {
      SameMatchCount(g, h, b.md);
    }
  }

  lemma {:induction false} SameMatchCount(g: seq<Sample>, h: seq<Sample>, md: string)
    requires |g| == |h|
    requires forall i :: 0 <= i < |g| ==> g[i].monthDay == h[i].monthDay
    ensures MatchCount(g, md) == MatchCount(h, md)
  {
    if g != [] {
      SameMatchCount(g[1..], h[1..], md);
    }
  }

  lemma {:induction false} FirstMatchSameCalendar(g: seq<Sample>, h: seq<Sample>, md: string)
    requires |g| == |h|
    requires forall i :: 0 <= i < |g| ==> g[i].monthDay == h[i].monthDay
    ensures FirstMatch(g, md) == FirstMatch(h, md)
  {
    if g != [] && g[0].monthDay != md {
      FirstMatchSameCalendar(g[1..], h[1..], md);
    }
  }
}
