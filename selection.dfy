/** Time selection (`select_time`, with its `get_doys`) and the default anchored frequency (`default_freq`). */
module Selection {
  import opened Wrappers
  import opened TimeSeries

  /** One of the four ways of selecting time steps. */
  datatype Indexer =
    | BySeason(seasons: seq<Season>)
    | ByMonth(months: seq<int>)
    | ByDoyBounds(start: int, end: int)
    | ByDateBounds(startDate: string, endDate: string)

  /** `np.arange(lo, hi)`: the integers lo, lo + 1, ..., hi - 1. */
  function Range(lo: int, hi: int): (r: seq<int>)
    ensures |r| == if lo <= hi then hi - lo else 0
    ensures forall i :: 0 <= i < |r| ==> r[i] == lo + i
  {
    seq(if lo <= hi then hi - lo else 0, i => lo + i)
  }

  lemma RangeMembers(lo: int, hi: int)
    ensures forall d :: d in Range(lo, hi) <==> lo <= d < hi
  {
    forall d | lo <= d < hi
      ensures d in Range(lo, hi)
    {
      assert Range(lo, hi)[d - lo] == d;
    }
  }

  /**
   * `get_doys`: the days of year of the inclusive bounds [start, end]; when
   * start > end the range wraps around the end of the year, through 366 and
   * on from 0.
   */
  function GetDoys(start: int, end: int): (r: seq<int>)
    ensures forall d :: d in r <==>
      (start <= end && start <= d <= end) || (start > end && (start <= d <= 366 || 0 <= d <= end))
  {
    RangeMembers(start, end + 1);
    RangeMembers(start, 367);
    RangeMembers(0, end + 1);
    if start <= end then Range(start, end + 1) else Range(start, 367) + Range(0, end + 1)
  }

  /** The wrapped example: (335, 59) keeps exactly December from day 335 and January and February up to day 59. */
  lemma WrappedDoyBounds()
    ensures forall d :: 1 <= d <= 365 ==> (d in GetDoys(335, 59) <==> 335 <= d <= 365 || 1 <= d <= 59)
  {
  }

  /**
   * Whether a sample is selected. `resolve` gives the day of year of a
   * "%m-%d" date in the uniform calendar the series is resolved in (the
   * calendar service `to_cftime_datetime`).
   */
  predicate Selected(ix: Indexer, resolve: string -> int, s: Sample)
  {
    match ix
    case BySeason(ss) => SeasonOf(s.month) in ss
    case ByMonth(ms) => s.month in ms
    case ByDoyBounds(a, b) => s.doy in GetDoys(a, b)
    case ByDateBounds(a, b) => s.dateDoy in GetDoys(resolve(a), resolve(b))
  }

  /** Bounds select the days of year from start to end, wrapping past the year end when start > end. */
  lemma SelectedByBounds(ix: Indexer, resolve: string -> int, s: Sample)
    ensures ix.ByDoyBounds? ==> (Selected(ix, resolve, s) <==>
      (ix.start <= ix.end && ix.start <= s.doy <= ix.end) ||
      (ix.start > ix.end && (ix.start <= s.doy <= 366 || 0 <= s.doy <= ix.end)))
    ensures ix.ByDateBounds? ==> var a, b := resolve(ix.startDate), resolve(ix.endDate);
      (Selected(ix, resolve, s) <==> (a <= b && a <= s.dateDoy <= b) || (a > b && (a <= s.dateDoy <= 366 || 0 <= s.dateDoy <= b)))
  {
  }

  /** Masking (`drop=False`): unselected samples keep their time but their value becomes NaN. */
  function Mask(da: seq<Sample>, ix: Indexer, resolve: string -> int): (r: seq<Sample>)
    ensures |r| == |da|
    ensures forall i :: 0 <= i < |da| ==>
      r[i] == if Selected(ix, resolve, da[i]) then da[i] else da[i].(value := NaN)
  {
    seq(|da|, i requires 0 <= i < |da| =>
      if Selected(ix, resolve, da[i]) then da[i] else da[i].(value := NaN))
  }

  /** Dropping (`drop=True`): only the selected samples, in their original order. */
  function Keep(da: seq<Sample>, ix: Indexer, resolve: string -> int): seq<Sample>
  {
    if da == [] then []
    else (if Selected(ix, resolve, da[0]) then [da[0]] else []) + Keep(da[1..], ix, resolve)
  }

  /** Every kept sample is a selected sample of the input, and every selected sample is kept. */
  lemma {:induction false} KeepMembers(da: seq<Sample>, ix: Indexer, resolve: string -> int)
    ensures forall s :: s in Keep(da, ix, resolve) <==> s in da && Selected(ix, resolve, s)
    ensures |Keep(da, ix, resolve)| <= |da|
  {
    if da != [] {
      KeepMembers(da[1..], ix, resolve);
      assert da == [da[0]] + da[1..];
    }
  }

  /** Dropping commutes with concatenation, so the kept samples stay in their original order. */
  lemma {:induction false} KeepAppend(a: seq<Sample>, b: seq<Sample>, ix: Indexer, resolve: string -> int)
    ensures Keep(a + b, ix, resolve) == Keep(a, ix, resolve) + Keep(b, ix, resolve)
  {
    if a == [] {
      assert a + b == b;
    } else {
      assert (a + b)[1..] == a[1..] + b;
      KeepAppend(a[1..], b, ix, resolve);
    }
  }

  lemma {:induction false} KeepAll(da: seq<Sample>, ix: Indexer, resolve: string -> int)
    requires forall i :: 0 <= i < |da| ==> Selected(ix, resolve, da[i])
    ensures Keep(da, ix, resolve) == da
  {
    if da != [] {
      KeepAll(da[1..], ix, resolve);
    }
  }

  lemma {:induction false} KeepNone(da: seq<Sample>, ix: Indexer, resolve: string -> int)
    requires forall i :: 0 <= i < |da| ==> !Selected(ix, resolve, da[i])
    ensures Keep(da, ix, resolve) == []
  {
    if da != [] {
      KeepNone(da[1..], ix, resolve);
    }
  }

  /** How many of the four selection arguments are given. */
  function NumGiven(season: Option<seq<Season>>, month: Option<seq<int>>,
                    doyBounds: Option<(int, int)>, dateBounds: Option<(string, string)>): (n: nat)
    ensures n <= 4
    ensures n == 0 <==> season.None? && month.None? && doyBounds.None? && dateBounds.None?
  {
    (if season.Some? then 1 else 0) + (if month.Some? then 1 else 0) +
    (if doyBounds.Some? then 1 else 0) + (if dateBounds.Some? then 1 else 0)
  }

  /** The indexer named by the one given argument (checked in the order season, month, doy, date). */
  function GivenIndexer(season: Option<seq<Season>>, month: Option<seq<int>>,
                        doyBounds: Option<(int, int)>, dateBounds: Option<(string, string)>): Indexer
    requires NumGiven(season, month, doyBounds, dateBounds) > 0
  {
    if season.Some? then BySeason(season.value)
    else if month.Some? then ByMonth(month.value)
    else if doyBounds.Some? then ByDoyBounds(doyBounds.value.0, doyBounds.value.1)
    else ByDateBounds(dateBounds.value.0, dateBounds.value.1)
  }

  /**
   * `select_time`: more than one selection argument raises ValueError, none
   * returns the input unchanged, one masks (or drops) the unselected samples.
   * A single season or month is passed as a one-element sequence.
   */
  function SelectTime(da: seq<Sample>, drop: bool, season: Option<seq<Season>>, month: Option<seq<int>>,
                      doyBounds: Option<(int, int)>, dateBounds: Option<(string, string)>,
                      resolve: string -> int): (r: Result<seq<Sample>>)
    ensures NumGiven(season, month, doyBounds, dateBounds) > 1 <==> r.Failure?
    ensures r.Failure? ==> r.error.ValueError?
    ensures NumGiven(season, month, doyBounds, dateBounds) == 0 ==> r == Success(da)
    ensures NumGiven(season, month, doyBounds, dateBounds) == 1 && !drop ==>
      var ix := GivenIndexer(season, month, doyBounds, dateBounds);
      && |r.value| == |da|
      && (forall i :: 0 <= i < |da| && Selected(ix, resolve, da[i]) ==> r.value[i] == da[i])
      && (forall i :: 0 <= i < |da| && !Selected(ix, resolve, da[i]) ==>
            r.value[i].value == NaN && r.value[i].time == da[i].time)
    ensures NumGiven(season, month, doyBounds, dateBounds) == 1 && drop ==>
      var ix := GivenIndexer(season, month, doyBounds, dateBounds);
      && r.value == Keep(da, ix, resolve)
      && (forall s :: s in r.value <==> s in da && Selected(ix, resolve, s))
      && |r.value| <= |da|
  {
    var n := NumGiven(season, month, doyBounds, dateBounds);
    if n > 1 then Failure(ValueError("Only one method of indexing may be given"))
    else if n == 0 then Success(da)
    else
      var ix := GivenIndexer(season, month, doyBounds, dateBounds);
      if drop then
        KeepMembers(da, ix, resolve);
        Success(Keep(da, ix, resolve))
      else Success(Mask(da, ix, resolve))
  }

  /** The days of year of a sequence of samples. */
  function Doys(s: seq<Sample>): (r: seq<int>)
    ensures |r| == |s| && forall i :: 0 <= i < |s| ==> r[i] == s[i].doy
  {
    seq(|s|, i requires 0 <= i < |s| => s[i].doy)
  }

  /**
   * On one 365-day year of daily samples, selecting `doy_bounds=(335, 59)`
   * and dropping keeps days 1 to 59 and then days 335 to 365.
   */
  lemma WrappedSelectionOfOneYear(da: seq<Sample>, resolve: string -> int)
    requires |da| == 365 && forall i :: 0 <= i < 365 ==> da[i].doy == i + 1
    ensures SelectTime(da, true, None, None, Some((335, 59)), None, resolve).Success?
    ensures Doys(SelectTime(da, true, None, None, Some((335, 59)), None, resolve).value)
            == Range(1, 60) + Range(335, 366)
  {
    var ix := ByDoyBounds(335, 59);
    assert da == da[..59] + da[59..334] + da[334..];
    KeepAppend(da[..59] + da[59..334], da[334..], ix, resolve);
    KeepAppend(da[..59], da[59..334], ix, resolve);
    KeepAll(da[..59], ix, resolve);
    KeepNone(da[59..334], ix, resolve);
    KeepAll(da[334..], ix, resolve);
    var k := Keep(da, ix, resolve);
    assert k == da[..59] + da[334..];
    assert Doys(k) == Range(1, 60) + Range(335, 366);
  }

  // ---------------------------------------------------------------------------
  // default_freq

  const MonthAbbreviations: map<int, string> :=
    map[1 := "JAN", 2 := "FEB", 3 := "MAR", 4 := "APR", 5 := "MAY", 6 := "JUN",
        7 := "JUL", 8 := "AUG", 9 := "SEP", 10 := "OCT", 11 := "NOV", 12 := "DEC"]

  /** Month lengths of a leap year of the standard calendar (such as 2004). */
  const LeapMonthLengths: seq<int> := [31, 29, 31, 30, 31, 30, 31, 31, 30, 31, 30, 31]

  /** Days in the first m months of a leap year. */
  function DaysBeforeMonthEnd(m: nat): int
    requires m <= 12
  {
    if m == 0 then 0 else DaysBeforeMonthEnd(m - 1) + LeapMonthLengths[m - 1]
  }

  /** The cumulative month ends of a leap year, computed from the month lengths. */
  lemma LeapMonthEnds()
    ensures forall m :: 0 <= m <= 12 ==>
      DaysBeforeMonthEnd(m) == [0, 31, 60, 91, 121, 152, 182, 213, 244, 274, 305, 335, 366][m]
  {
    assert DaysBeforeMonthEnd(0) == 0;
    assert DaysBeforeMonthEnd(1) == 31;
    assert DaysBeforeMonthEnd(2) == 60;
    assert DaysBeforeMonthEnd(3) == 91;
    assert DaysBeforeMonthEnd(4) == 121;
    assert DaysBeforeMonthEnd(5) == 152;
    assert DaysBeforeMonthEnd(6) == 182;
    assert DaysBeforeMonthEnd(7) == 213;
    assert DaysBeforeMonthEnd(8) == 244;
    assert DaysBeforeMonthEnd(9) == 274;
    assert DaysBeforeMonthEnd(10) == 305;
    assert DaysBeforeMonthEnd(11) == 335;
    assert DaysBeforeMonthEnd(12) == 366;
  }

  /** The month of day `d` of 2004 (`num2date(d - 1, "days since 2004-01-01").month`). */
  function MonthOfLeapDoy(d: int): (m: int)
    requires 1 <= d <= 366
    ensures 1 <= m <= 12 && DaysBeforeMonthEnd(m - 1) < d <= DaysBeforeMonthEnd(m)
  {
    LeapMonthEnds();
    if d <= 31 then 1 else if d <= 60 then 2 else if d <= 91 then 3
    else if d <= 121 then 4 else if d <= 152 then 5 else if d <= 182 then 6
    else if d <= 213 then 7 else if d <= 244 then 8 else if d <= 274 then 9
    else if d <= 305 then 10 else if d <= 335 then 11 else 12
  }

  predicate IsDigit(c: char) { '0' <= c <= '9' }

  /** The ASCII characters `int()` strips around a literal: space, tab to carriage return, and 0x1c to 0x1f. */
  predicate IsSpace(c: char) {
    c as int == 32 || 9 <= c as int <= 13 || 28 <= c as int <= 31
  }

  predicate AllDigits(t: string) {
    forall k :: 0 <= k < |t| ==> IsDigit(t[k])
  }

  /** `t` without its leading whitespace. */
  function StripLeading(t: string): string {
    if |t| > 0 && IsSpace(t[0]) then StripLeading(t[1..]) else t
  }

  /** `t` without its trailing whitespace. */
  function StripTrailing(t: string): string {
    if |t| > 0 && IsSpace(t[|t| - 1]) then StripTrailing(t[..|t| - 1]) else t
  }

  /** The decimal value of a string of digits. */
  function DigitsValue(t: string): (v: nat)
    requires AllDigits(t)
  {
    if t == [] then 0 else 10 * DigitsValue(t[..|t| - 1]) + (t[|t| - 1] - '0') as int
  }

  /**
   * `int(t)` on ASCII text: the whitespace around the literal is stripped,
   * then an optional sign and at least one decimal digit. Digit-group
   * underscores are not modelled.
   */
  function PyInt(t: string): Result<int> {
    var u := StripTrailing(StripLeading(t));
    if |u| >= 2 && (u[0] == '+' || u[0] == '-') && AllDigits(u[1..]) then
      Success(if u[0] == '-' then -(DigitsValue(u[1..]) as int) else DigitsValue(u[1..]))
    else if |u| >= 1 && AllDigits(u) then Success(DigitsValue(u))
    else Failure(ValueError("invalid literal for int()"))
  }

  /**
   * `int(s[:2])`, the month of a "%m-%d" string. Of two characters `int`
   * reads two digits, a digit with whitespace before or after it, or a
   * signed digit; a single character must be a digit.
   */
  function ParseMonthPrefix(s: string): (r: Result<int>)
    ensures |s| == 0 ==> r.Failure?
    ensures |s| == 1 ==> (r.Success? <==> IsDigit(s[0])) && (r.Success? ==> r.value == (s[0] - '0') as int)
    ensures |s| >= 2 ==> (r.Success? <==>
      (IsDigit(s[1]) && (IsDigit(s[0]) || IsSpace(s[0]) || s[0] == '+' || s[0] == '-')) || (IsDigit(s[0]) && IsSpace(s[1])))
    ensures |s| >= 2 && IsDigit(s[0]) && IsDigit(s[1]) ==> r == Success(10 * (s[0] - '0') as int + (s[1] - '0') as int)
    ensures |s| >= 2 && IsDigit(s[1]) && (IsSpace(s[0]) || s[0] == '+') ==> r == Success((s[1] - '0') as int)
    ensures |s| >= 2 && IsDigit(s[1]) && s[0] == '-' ==> r == Success(-((s[1] - '0') as int))
    ensures |s| >= 2 && IsDigit(s[0]) && IsSpace(s[1]) ==> r == Success((s[0] - '0') as int)
    ensures r.Success? ==> -9 <= r.value <= 99
  {
    if |s| == 0 then
      assert StripTrailing(StripLeading(s)) == "";
      PyInt(s)
    else if |s| == 1 then
      PyIntOfOne(s);
      PyInt(s)
    else
      PyIntOfTwo(s[..2]);
      PyInt(s[..2])
  }

  lemma DigitValues(a: char, b: char)
    ensures IsDigit(a) ==> AllDigits([a]) && DigitsValue([a]) == (a - '0') as int
    ensures IsDigit(a) && IsDigit(b) ==> AllDigits([a, b]) && DigitsValue([a, b]) == 10 * (a - '0') as int + (b - '0') as int
  {
    if IsDigit(a) && IsDigit(b) {
      assert [a, b][..1] == [a];
    }
  }

  /** `int` of one character reads exactly a digit. */
  lemma PyIntOfOne(t: string)
    requires |t| == 1
    ensures PyInt(t).Success? <==> IsDigit(t[0])
    ensures IsDigit(t[0]) ==> PyInt(t) == Success((t[0] - '0') as int)
  {
    assert t[1..] == "" && t[..0] == "";
    DigitValues(t[0], t[0]);
    if IsSpace(t[0]) {
      assert StripLeading(t) == "";
    } else {
      assert StripTrailing(StripLeading(t)) == t;
    }
  }

  /** `int` of two characters: two digits, a digit padded with whitespace, or a signed digit. */
  lemma PyIntOfTwo(t: string)
    requires |t| == 2
    ensures PyInt(t).Success? <==>
      (IsDigit(t[1]) && (IsDigit(t[0]) || IsSpace(t[0]) || t[0] == '+' || t[0] == '-')) || (IsDigit(t[0]) && IsSpace(t[1]))
    ensures IsDigit(t[0]) && IsDigit(t[1]) ==> PyInt(t) == Success(10 * (t[0] - '0') as int + (t[1] - '0') as int)
    ensures IsDigit(t[1]) && (IsSpace(t[0]) || t[0] == '+') ==> PyInt(t) == Success((t[1] - '0') as int)
    ensures IsDigit(t[1]) && t[0] == '-' ==> PyInt(t) == Success(-((t[1] - '0') as int))
    ensures IsDigit(t[0]) && IsSpace(t[1]) ==> PyInt(t) == Success((t[0] - '0') as int)
  {
    var a, b := t[0], t[1];
    assert t == [a, b];
    assert t[1..] == [b] && t[..1] == [a];
    assert [b][1..] == "" && [a][..0] == "" && [b][..0] == "" && [a][1..] == "";
    DigitValues(a, b);
    DigitValues(b, b);
    var l := StripLeading(t);
    var u := StripTrailing(l);
    if IsSpace(a) {
      assert l == StripLeading([b]);
      if IsSpace(b) {
        assert StripLeading([b]) == StripLeading([b][1..]);
        assert l == "" && u == "";
      } else {
        assert l == [b] && u == [b];
      }
    } else {
      assert l == t;
      if IsSpace(b) {
        assert u == StripTrailing([a]) == [a];
      } else {
        assert u == t;
        assert u[1..] == [b];
      }
    }
  }

  /** Whitespace and a sign are read by `int`, and "-1" parses to a month no table holds. */
  lemma ParseMonthPrefixExamples()
    ensures ParseMonthPrefix("07-01") == Success(7)
    ensures ParseMonthPrefix(" 7-01") == Success(7)
    ensures ParseMonthPrefix("+7-01") == Success(7)
    ensures ParseMonthPrefix("-1-01") == Success(-1)
    ensures ParseMonthPrefix("7") == Success(7)
    ensures ParseMonthPrefix("7-01").Failure?
    ensures ParseMonthPrefix("July").Failure?
  {
    assert "07-01"[0] == '0' && "07-01"[1] == '7';
    assert " 7-01"[0] == ' ' && " 7-01"[1] == '7';
    assert "+7-01"[0] == '+' && "+7-01"[1] == '7';
    assert "-1-01"[0] == '-' && "-1-01"[1] == '1';
    assert "7"[0] == '7';
    assert "7-01"[0] == '7' && "7-01"[1] == '-';
    assert "July"[0] == 'J';
  }

  /** `"AS-" + _MONTH_ABBREVIATIONS[month]`, a KeyError outside 1..12. */
  function AnnualAnchor(month: int): (r: Result<string>)
    ensures r.Success? <==> 1 <= month <= 12
    ensures r.Success? ==> r.value == "AS-" + MonthAbbreviations[month]
  {
    if month in MonthAbbreviations then Success("AS-" + MonthAbbreviations[month])
    else Failure(KeyError("month"))
  }

  /**
   * `default_freq`: "AS-JAN" with no indexer; otherwise the annual frequency
   * anchored at the month where the last given indexer's period starts:
   * December for seasons, the first month listed, the month of the first
   * day of year in leap year 2004, or the month in the start date's first
   * two characters.
   */
  function DefaultFreq(indexer: seq<Indexer>): (r: Result<string>)
    requires indexer != [] && indexer[|indexer| - 1].ByDoyBounds? ==> 1 <= indexer[|indexer| - 1].start <= 366
    ensures indexer == [] ==> r == Success("AS-JAN")
    ensures r.Success? ==> exists m :: 1 <= m <= 12 && r.value == "AS-" + MonthAbbreviations[m]
    ensures indexer != [] ==>
      match indexer[|indexer| - 1]
      case BySeason(_) => r == Success("AS-DEC")
      case ByMonth(ms) =>
        && (r.Success? <==> |ms| > 0 && 1 <= ms[0] <= 12)
        && (r.Success? ==> r.value == "AS-" + MonthAbbreviations[ms[0]])
      case ByDoyBounds(d, _) =>
        r.Success? && exists m :: 1 <= m <= 12 && DaysBeforeMonthEnd(m - 1) < d <= DaysBeforeMonthEnd(m)
                                  && r.value == "AS-" + MonthAbbreviations[m]
      case ByDateBounds(a, _) =>
        && (r.Success? <==> ParseMonthPrefix(a).Success? && 1 <= ParseMonthPrefix(a).value <= 12)
        && (r.Success? ==> r.value == "AS-" + MonthAbbreviations[ParseMonthPrefix(a).value])
  {
    assert MonthAbbreviations[1] == "JAN" && MonthAbbreviations[12] == "DEC";
    assert "AS-" + MonthAbbreviations[12] == "AS-DEC";
    if indexer == [] then Success("AS-JAN")
    else
      var month: Result<int> :=
        match indexer[|indexer| - 1]
        case BySeason(_) => Success(12)
        case ByMonth(ms) => if |ms| == 0 then Failure(IndexError) else Success(ms[0])
        case ByDoyBounds(d, _) => Success(MonthOfLeapDoy(d))
        case ByDateBounds(a, _) => ParseMonthPrefix(a);
      if month.Failure? then Failure(month.error) else AnnualAnchor(month.value)
  }

  /** A day-of-year start is read in leap year 2004, so day 335 is in November and day 336 in December. */
  lemma DefaultFreqExamples()
    ensures DefaultFreq([ByDoyBounds(335, 59)]) == Success("AS-NOV")
    ensures DefaultFreq([ByDoyBounds(336, 59)]) == Success("AS-DEC")
    ensures DefaultFreq([ByDoyBounds(60, 200)]) == Success("AS-FEB")
    ensures DefaultFreq([ByMonth([6, 7, 8])]) == Success("AS-JUN")
  {
    LeapMonthEnds();
    assert MonthOfLeapDoy(335) == 11;
    assert MonthOfLeapDoy(336) == 12;
    assert MonthOfLeapDoy(60) == 2;
    assert MonthAbbreviations[12] == "DEC" && MonthAbbreviations[2] == "FEB" && MonthAbbreviations[11] == "NOV";
    assert MonthAbbreviations[6] == "JUN";
    assert "AS-" + MonthAbbreviations[11] == "AS-NOV" && "AS-" + MonthAbbreviations[12] == "AS-DEC";
    assert "AS-" + MonthAbbreviations[2] == "AS-FEB" && "AS-" + MonthAbbreviations[6] == "AS-JUN";
  }

  /** A date gives the month in its first two characters; "-1" is read by `int` but is no month. */
  lemma DefaultFreqDateExamples()
    ensures DefaultFreq([ByDateBounds("07-01", "08-31")]) == Success("AS-JUL")
    ensures DefaultFreq([ByDateBounds("-1-01", "08-31")]) == Failure(KeyError("month"))
  {
    assert "07-01"[0] == '0' && "07-01"[1] == '7';
    assert ParseMonthPrefix("07-01") == Success(7);
    assert "-1-01"[0] == '-' && "-1-01"[1] == '1';
    assert MonthAbbreviations[7] == "JUL";
    assert "AS-" + MonthAbbreviations[7] == "AS-JUL";
  }
}
