/**
 * The one-dimensional time series the generic indices work on. Calendar
 * accessors of the array library (month, day of year, season, month-day)
 * are carried by each sample as given inputs.
 */
module TimeSeries {

  /** A floating-point sample: missing (NaN) or a number. */
  datatype Value = NaN | Num(x: real)

  /** Meteorological seasons, as named by the time accessor `dt.season`. */
  datatype Season = DJF | MAM | JJA | SON

  /**
   * One time step.
   * - `time`: the timestamp, in days since an arbitrary epoch;
   * - `month`, `doy`: month and day of year of the timestamp in its calendar;
   * - `dateDoy`: day of year in the uniform calendar month-day bounds are
   *   resolved in (the series' own if uniform, "all_leap" otherwise);
   * - `monthDay`: the timestamp formatted as "%m-%d".
   */
  datatype Sample = Sample(time: int, month: int, doy: int, dateDoy: int, monthDay: string, value: Value)

  /** One resampling period: its base (start) time and its samples in time order. */
  datatype Period = Period(base: int, samples: seq<Sample>)

  /** The season of a month number: DJF for 12, 1, 2; then MAM, JJA, SON by quarters. */
  function SeasonOf(month: int): (s: Season)
    ensures 1 <= month <= 12 ==>
      (s == DJF <==> month in {12, 1, 2}) && (s == MAM <==> month in {3, 4, 5}) &&
      (s == JJA <==> month in {6, 7, 8}) && (s == SON <==> month in {9, 10, 11})
  {
    var q := (month / 3) % 4;
    if q == 0 then DJF else if q == 1 then MAM else if q == 2 then JJA else SON
  }

  /** The values of a sequence of samples, in order. */
  function Values(s: seq<Sample>): (vs: seq<Value>)
    ensures |vs| == |s| && forall i :: 0 <= i < |s| ==> vs[i] == s[i].value
  {
    seq(|s|, i requires 0 <= i < |s| => s[i].value)
  }

  /** Sum of the numeric values, NaN skipped (a sum of nothing is 0). */
  function SumPresent(vs: seq<Value>): real {
    if vs == [] then 0.0
    else SumPresent(vs[..|vs| - 1]) + (if vs[|vs| - 1].Num? then vs[|vs| - 1].x else 0.0)
  }

  /** Number of numeric values. */
  function CountPresent(vs: seq<Value>): (c: nat)
    ensures c <= |vs|
    ensures c == 0 <==> forall i :: 0 <= i < |vs| ==> vs[i].NaN?
  {
    if vs == [] then 0
    else CountPresent(vs[..|vs| - 1]) + (if vs[|vs| - 1].Num? then 1 else 0)
  }
}
