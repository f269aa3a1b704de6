/**
 * `_get_number_of_elements_by_year`: how many samples a year holds, from
 * the calendar and the sampling frequency inferred from the time axis.
 */
module Sampling {
  import opened Wrappers

  /**
   * The time axis' calendar services, as inputs: the calendar name, the
   * parsed inferred frequency (multiple and base, such as 6 and "H"), and
   * the calendar's year length `max_doy`.
   */
  datatype Sampling = Sampling(calendar: string, mult: int, freq: string, maxDoy: int)

  /** The calendars whose years do not all have the same length. */
  const NonUniformCalendars: set<string> := {"standard", "gregorian", "default", "proleptic_gregorian"}

  /** Samples in a year at one unit of each base frequency; any other base counts 1. */
  function ElementsInYear(freq: string, daysInYear: int): (e: int)
    ensures freq !in {"Q", "M", "D", "H"} ==> e == 1
    ensures freq == "Q" ==> e == 4
    ensures freq == "M" ==> e == 12
    ensures freq == "D" ==> e == daysInYear
    ensures freq == "H" ==> e == 24 * daysInYear
  {
    if freq == "Q" then 4
    else if freq == "M" then 12
    else if freq == "D" then daysInYear
    else if freq == "H" then daysInYear * 24
    else 1
  }

  /**
   * Uniform calendars only; the table entry divided by the multiple must be
   * a whole number (division by a zero multiple raises ZeroDivisionError).
   */
  function NumberOfElementsByYear(s: Sampling): (r: Result<int>)
    ensures r.Success? <==>
      s.calendar !in NonUniformCalendars && s.mult != 0 && ElementsInYear(s.freq, s.maxDoy) % s.mult == 0
    ensures s.calendar in NonUniformCalendars ==> r.Failure? && r.error.ValueError?
    ensures s.calendar !in NonUniformCalendars && s.mult == 0 ==> r == Failure(ZeroDivisionError)
    ensures r.Failure? && s.mult != 0 ==> r.error.ValueError?
    ensures r.Success? ==> r.value * s.mult == ElementsInYear(s.freq, s.maxDoy)
  {
    if s.calendar in NonUniformCalendars then
      Failure(ValueError("For moving window computations, the data must have a uniform calendar (360_day, no_leap or all_leap)"))
    else if s.mult == 0 then
      Failure(ZeroDivisionError)
    else
      var e := ElementsInYear(s.freq, s.maxDoy);
      if e % s.mult != 0 then
        Failure(ValueError("Sampling frequency of the data must be Q, M, D or H and evenly divide a year"))
      else
        DivExact(e, s.mult);
        Success(e / s.mult)
  }

  /** An exact (Euclidean) quotient multiplied back gives the dividend. */
  lemma DivExact(e: int, m: int)
    requires m != 0 && e % m == 0
    ensures (e / m) * m == e
  { }

  /** With a positive multiple and year length the count is positive. */
  lemma ElementsByYearPositive(s: Sampling)
    requires s.mult >= 1 && s.maxDoy >= 1
    requires NumberOfElementsByYear(s).Success?
    ensures NumberOfElementsByYear(s).value >= 1
  {
    var e := ElementsInYear(s.freq, s.maxDoy);
    var q := NumberOfElementsByYear(s).value;
    assert e >= 1;
    assert q * s.mult == e;
    assert (q - 1) * s.mult == e - s.mult;
  }

  /** Daily, 6-hourly and monthly data on uniform calendars. */
  lemma ElementsByYearExamples()
    ensures NumberOfElementsByYear(Sampling("noleap", 1, "D", 365)) == Success(365)
    ensures NumberOfElementsByYear(Sampling("360_day", 6, "H", 360)) == Success(1440)
    ensures NumberOfElementsByYear(Sampling("all_leap", 1, "M", 366)) == Success(12)
  {
    assert "noleap" !in NonUniformCalendars && "360_day" !in NonUniformCalendars && "all_leap" !in NonUniformCalendars;
    assert ElementsInYear("D", 365) == 365 && ElementsInYear("H", 360) == 8640 && ElementsInYear("M", 366) == 12;
  }

  /** Weekly and annual data, and a calendar with leap years, are refused. */
  lemma ElementsByYearRefusals()
    ensures NumberOfElementsByYear(Sampling("noleap", 7, "D", 365)).Failure?
    ensures NumberOfElementsByYear(Sampling("noleap", 2, "A", 365)).Failure?
    ensures NumberOfElementsByYear(Sampling("standard", 1, "D", 365)).Failure?
  {
    assert "noleap" !in NonUniformCalendars;
    assert "standard" in NonUniformCalendars;
    assert "A" !in {"Q", "M", "D", "H"};
  }
}
