/**
 * `construct_moving_yearly_window` and `unpack_moving_yearly_window`: cut a
 * series into overlapping windows of whole years, and glue the central
 * years of each window back into one series.
 */
module MovingWindow {
  import opened Wrappers
  import opened Sampling

  /** One sample of the series: its time (in days) and its value. */
  datatype Stamped<T> = Stamped(time: int, value: T)

  /**
   * The stacked windows: the time axis they all share (the first window's),
   * the start time of each window (the coordinate of the new dimension),
   * and the values of each window.
   */
  datatype Windows<T> = Windows(time: seq<int>, starts: seq<int>, values: seq<seq<T>>)

  function Times<T>(s: seq<Stamped<T>>): seq<int> {
    seq(|s|, i requires 0 <= i < |s| => s[i].time)
  }

  function ValuesOf<T>(s: seq<Stamped<T>>): seq<T> {
    seq(|s|, i requires 0 <= i < |s| => s[i].value)
  }

  /** A Python slice bound: negative counts from the end, then clamped to [0, len]. */
  function SliceIndex(i: int, len: nat): (j: nat)
    ensures j <= len
    ensures 0 <= i <= len ==> j == i
  {
    if i < 0 then (if i + len < 0 then 0 else i + len)
    else if i > len then len
    else i
  }

  /** `s[a:b]` with Python's slice semantics. */
  function PySlice<T>(s: seq<T>, a: int, b: int): (r: seq<T>)
    ensures 0 <= a <= b <= |s| ==> r == s[a..b]
    ensures 0 <= a <= |s| <= b ==> r == s[a..]
    ensures |r| <= |s|
  {
    var i, j := SliceIndex(a, |s|), SliceIndex(b, |s|);
    if i >= j then [] else s[i..j]
  }

  /** The index `k` windows of `stride` samples further on. */
  function Offset(k: nat, stride: int): int {
    k * stride
  }

  lemma OffsetStep(k: nat, stride: int)
    ensures Offset(k + 1, stride) == Offset(k, stride) + stride
  {
    assert (k + 1) * stride == k * stride + stride;
  }

  // ---------------------------------------------------------------------------
  // construct_moving_yearly_window

  /**
   * What the construction produces from `da` with windows of `N` samples
   * every `stride` samples: one window per start `k * stride`, the first
   * being `da[0:N]` (shorter when the series is) and each further one
   * exactly `N` samples inside the series, as many as fit; all share the
   * first window's times and are labelled with their own first time.
   */
  ghost predicate IsMovingWindow<T>(da: seq<Stamped<T>>, N: int, stride: int, w: Windows<T>) {
    var K := |w.values|;
    && K >= 1 && |w.starts| == K
    && w.time == Times(PySlice(da, 0, N))
    && w.values[0] == ValuesOf(PySlice(da, 0, N))
    && (forall k: nat :: 1 <= k < K ==>
          0 <= Offset(k, stride) <= Offset(k, stride) + N <= |da| &&
          w.values[k] == ValuesOf(da[Offset(k, stride)..Offset(k, stride) + N]))
    && (forall k: nat :: k < K ==>
          0 <= Offset(k, stride) < |da| && w.starts[k] == da[Offset(k, stride)].time)
    && Offset(K, stride) + N > |da|
  }

  /**
   * `construct_moving_yearly_window`, with windows of `window` years every
   * `step` years; an empty series, or a window of no years, leaves an empty
   * first slice with no first time to label it with (IndexError).
   */
  method ConstructMovingYearlyWindow<T>(da: seq<Stamped<T>>, s: Sampling, window: int, step: int)
    returns (r: Result<Windows<T>>)
    requires window >= 0 && step >= 1 && s.mult >= 1 && s.maxDoy >= 1
    ensures NumberOfElementsByYear(s).Failure? ==> r == Failure(NumberOfElementsByYear(s).error)
    ensures NumberOfElementsByYear(s).Success? && (da == [] || window == 0) ==> r == Failure(IndexError)
    ensures NumberOfElementsByYear(s).Success? && da != [] && window >= 1 ==>
      var n := NumberOfElementsByYear(s).value;
      r.Success? && IsMovingWindow(da, window * n, n * step, r.value)
  {
    var n :- NumberOfElementsByYear(s);
    ElementsByYearPositive(s);
    if |da| == 0 || window == 0 {
      // `first_slice.time[0]` of an empty first slice.
      return Failure(IndexError);
    }
    var N := window * n;
    var stride := n * step;
    assert N >= 1 && stride >= 1 by {
      MulAtLeastOne(window, n);
      MulAtLeastOne(n, step);
    }
    var w := CutWindows(da, N, stride);
    r := Success(w);
  }

  /**
   * The slicing loop of `construct_moving_yearly_window`: the first slice
   * `da[0:N]`, then a full `N`-sample slice every `stride` samples while
   * one still fits, each relabelled with the first slice's times.
   */
  method CutWindows<T>(da: seq<Stamped<T>>, N: int, stride: int) returns (w: Windows<T>)
    requires N >= 1 && stride >= 1 && da != []
    ensures IsMovingWindow(da, N, stride, w)
  {
    var first := PySlice(da, 0, N);
    var starts := [first[0].time];
    var values := [ValuesOf(first)];
    var iStart := stride;
    while iStart + N <= |da|
      invariant |values| == |starts| >= 1
      invariant iStart == Offset(|values|, stride) && iStart >= 0
      invariant values[0] == ValuesOf(first) && starts[0] == da[0].time
      invariant forall k: nat :: 1 <= k < |values| ==>
        0 <= Offset(k, stride) <= Offset(k, stride) + N <= |da| &&
        values[k] == ValuesOf(da[Offset(k, stride)..Offset(k, stride) + N])
      invariant forall k: nat :: k < |values| ==>
        0 <= Offset(k, stride) < |da| && starts[k] == da[Offset(k, stride)].time
      decreases |da| - iStart
    {
      var slc := da[iStart..iStart + N];
      ghost var K, values0, starts0 := |values|, values, starts;
      OffsetStep(K, stride);
      starts := starts + [slc[0].time];
      values := values + [ValuesOf(slc)];
      forall k: nat | 1 <= k < |values|
        ensures 0 <= Offset(k, stride) <= Offset(k, stride) + N <= |da|
        ensures values[k] == ValuesOf(da[Offset(k, stride)..Offset(k, stride) + N])
      {
        if k < K { assert values[k] == values0[k]; }
      }
      forall k: nat | k < |values|
        ensures 0 <= Offset(k, stride) < |da| && starts[k] == da[Offset(k, stride)].time
      {
        if k < K { assert starts[k] == starts0[k]; }
      }
      iStart := iStart + stride;
    }
    w := Windows(Times(first), starts, values);
    forall k: nat | 1 <= k < |w.values|
      ensures 0 <= Offset(k, stride) <= Offset(k, stride) + N <= |da|
      ensures w.values[k] == ValuesOf(da[Offset(k, stride)..Offset(k, stride) + N])
    {
      assert w.values[k] == values[k];
    }
    forall k: nat | k < |w.values|
      ensures 0 <= Offset(k, stride) < |da| && w.starts[k] == da[Offset(k, stride)].time
    {
      assert w.starts[k] == starts[k];
    }
  }

  lemma MulAtLeastOne(a: int, b: int)
    requires a >= 1 && b >= 1
    ensures a * b >= 1
  {
    assert a * b == (a - 1) * b + b;
    assert (a - 1) * b >= 0;
  }

  // ---------------------------------------------------------------------------
  // unpack_moving_yearly_window

  /** The stacked array's shape: one start and one row per window, each row as long as the time axis. */
  predicate WellFormed<T>(w: Windows<T>) {
    |w.values| == |w.starts| && forall k :: 0 <= k < |w.values| ==> |w.values[k]| == |w.time|
  }

  /** The differences between consecutive window starts, in days (`diff` along the window dimension). */
  function Spacings(starts: seq<int>): (d: seq<int>)
    ensures |d| == if |starts| == 0 then 0 else |starts| - 1
    ensures forall k :: 0 <= k < |d| ==> d[k] == starts[k + 1] - starts[k]
  {
    if |starts| <= 1 then [] else seq(|starts| - 1, k requires 0 <= k < |starts| - 1 => starts[k + 1] - starts[k])
  }

  /**
   * The distinct spacings (`np.unique` of the spacings in years). Every
   * spacing is divided by the same year length, which keeps distinct
   * spacings distinct, so the set of spacings in days has as many members.
   */
  function WindowSteps(starts: seq<int>): set<int> {
    var d := Spacings(starts);
    set k | 0 <= k < |d| :: d[k]
  }

  /** `int(a / b)` for a positive `b`: the quotient truncated toward zero. */
  function TruncDiv(a: int, b: int): int
    requires b >= 1
  {
    if a >= 0 then a / b else -((-a) / b)
  }

  /**
   * `(window - step) // 2` for a window of `samples / n` years, taken
   * exactly: the floor of `(samples - step * n) / (2 * n)`.
   */
  function LeftYears(samples: int, n: int, step: int): int
    requires n >= 1
  {
    (samples - step * n) / (2 * n)
  }

  /**
   * The dropped years are split evenly: `left` years before the kept ones
   * and `left` or `left + 1` (up to a fraction of a year) after them.
   */
  lemma LeftYearsCentred(samples: int, n: int, step: int)
    requires n >= 1
    ensures var left := LeftYears(samples, n, step);
      2 * n * left <= samples - step * n < 2 * n * left + 2 * n
  {
    var x, d := samples - step * n, 2 * n;
    var q, r := x / d, x % d;
    assert x == d * q + r && 0 <= r < d;
  }

  /** `int(a / b)` brackets the exact quotient: `b * q` is `a` rounded toward zero to a multiple of `b`. */
  lemma TruncDivBrackets(a: int, b: int)
    requires b >= 1
    ensures var q := TruncDiv(a, b);
      (a >= 0 ==> 0 <= q && b * q <= a < b * q + b) && (a < 0 ==> q <= 0 && b * q - b < a <= b * q)
  {
    if a >= 0 {
      DivBrackets(a, b);
    } else {
      var q := (-a) / b;
      DivBrackets(-a, b);
      assert b * -q == -(b * q);
    }
  }

  /** Euclidean division by a positive `d` brackets `x` between consecutive multiples of `d`. */
  lemma DivBrackets(x: int, d: int)
    requires d >= 1
    ensures 0 <= x ==> 0 <= x / d
    ensures d * (x / d) <= x < d * (x / d) + d
  {
    assert x == d * (x / d) + x % d;
  }


  /**
   * The years of each window that unpacking keeps, as `(left, step)`: the
   * window length in years is read back from the time axis, the step from
   * the spacing of the window starts, and `left = (window - step) // 2`.
   * Unequal spacings raise ValueError; a single window has no spacing at all
   * (IndexError).
   */
  function UnpackPlan<T>(w: Windows<T>, s: Sampling): (r: Result<(int, int)>)
    requires s.mult >= 1 && s.maxDoy >= 1
    ensures NumberOfElementsByYear(s).Failure? ==> r == Failure(NumberOfElementsByYear(s).error)
    ensures NumberOfElementsByYear(s).Success? ==> (r.Success? <==> |WindowSteps(w.starts)| == 1)
    ensures NumberOfElementsByYear(s).Success? && |w.starts| <= 1 ==> r == Failure(IndexError)
    ensures NumberOfElementsByYear(s).Success? && |WindowSteps(w.starts)| > 1 ==>
      r.Failure? && r.error.ValueError?
    ensures r.Success? ==> |w.starts| >= 2 && WindowSteps(w.starts) == {w.starts[1] - w.starts[0]}
    ensures r.Success? ==> r.value.1 == TruncDiv(w.starts[1] - w.starts[0], s.maxDoy)
    ensures r.Success? ==>
      NumberOfElementsByYear(s).Success? && NumberOfElementsByYear(s).value >= 1 &&
      r.value.0 == LeftYears(|w.time|, NumberOfElementsByYear(s).value, r.value.1)
  {
    var n :- NumberOfElementsByYear(s);
    ElementsByYearPositive(s);
    var steps := WindowSteps(w.starts);
    StepsOf(w.starts);
    if |steps| > 1 then Failure(ValueError("The spacing between the windows is not equal."))
    else if |steps| == 0 then Failure(IndexError)
    else
      var step := TruncDiv(Spacings(w.starts)[0], s.maxDoy);
      Success((LeftYears(|w.time|, n, step), step))
  }

  /** No window start, or one, has no spacing; a single spacing is the first one. */
  lemma StepsOf(starts: seq<int>)
    ensures |starts| <= 1 ==> WindowSteps(starts) == {}
    ensures |WindowSteps(starts)| == 1 ==>
      |starts| >= 2 && Spacings(starts)[0] == starts[1] - starts[0] &&
      WindowSteps(starts) == {starts[1] - starts[0]}
  {
    var steps := WindowSteps(starts);
    if |steps| == 1 {
      var first := Spacings(starts)[0];
      assert first in steps;
      SingletonOf(steps, first);
    }
  }

  lemma SingletonOf(xs: set<int>, x: int)
    requires |xs| == 1 && x in xs
    ensures xs == {x}
  {
    var rest := xs - {x};
    assert |rest| == 0;
  }

  /** Window `k` as a series: the shared time axis paired with its values. */
  function Window<T>(w: Windows<T>, k: int): (s: seq<Stamped<T>>)
    requires WellFormed(w) && 0 <= k < |w.values|
    ensures |s| == |w.time|
  {
    seq(|w.time|, i requires 0 <= i < |w.time| => Stamped(w.time[i], w.values[k][i]))
  }

  /** A slice moved forward by `dt` days. */
  function Shift<T>(s: seq<Stamped<T>>, dt: int): (r: seq<Stamped<T>>)
    ensures |r| == |s|
  {
    seq(|s|, i requires 0 <= i < |s| => Stamped(s[i].time + dt, s[i].value))
  }

  /** The kept part `[lo, hi)` of window `k`, moved to its own years. */
  function KeptSlice<T>(w: Windows<T>, lo: int, hi: int, k: int): seq<Stamped<T>>
    requires WellFormed(w) && 0 <= k < |w.values|
  {
    Shift(PySlice(Window(w, k), lo, hi), w.starts[k] - w.starts[0])
  }

  /** The kept parts of the first `k` windows, concatenated in window order. */
  function Unpacked<T>(w: Windows<T>, lo: int, hi: int, k: nat): seq<Stamped<T>>
    requires WellFormed(w) && k <= |w.values|
  {
    if k == 0 then [] else Unpacked(w, lo, hi, k - 1) + KeptSlice(w, lo, hi, k - 1)
  }

  /**
   * `unpack_moving_yearly_window`: keep samples `[left * n, (left + step) * n)`
   * of every window, shift them by the window's distance from the first
   * window, and concatenate (the warning for a non-whole number of years is
   * not modelled).
   */
  method UnpackMovingYearlyWindow<T>(w: Windows<T>, s: Sampling) returns (r: Result<seq<Stamped<T>>>)
    requires s.mult >= 1 && s.maxDoy >= 1 && WellFormed(w)
    ensures UnpackPlan(w, s).Failure? ==> r == Failure(UnpackPlan(w, s).error)
    ensures UnpackPlan(w, s).Success? ==>
      var n, left, step := NumberOfElementsByYear(s).value, UnpackPlan(w, s).value.0, UnpackPlan(w, s).value.1;
      r == Success(Unpacked(w, left * n, (left + step) * n, |w.starts|))
  {
    var plan :- UnpackPlan(w, s);
    var n := NumberOfElementsByYear(s).value;
    var (left, step) := plan;
    var out := ConcatKept(w, left * n, (left + step) * n);
    r := Success(out);
  }

  /** The plan the method computes step by step is `UnpackPlan`'s. */
  lemma PlanIs<T>(w: Windows<T>, s: Sampling, n: int, left: int, step: int)
    requires s.mult >= 1 && s.maxDoy >= 1 && NumberOfElementsByYear(s) == Success(n)
    requires |WindowSteps(w.starts)| == 1
    requires step == TruncDiv(Spacings(w.starts)[0], s.maxDoy)
    requires left == LeftYears(|w.time|, n, step)
    ensures UnpackPlan(w, s) == Success((left, step))
  {
    assert Spacings(w.starts)[0] in WindowSteps(w.starts);
  }

  /** The loop of `unpack_moving_yearly_window`: each window's kept slice, shifted, appended in window order. */
  method ConcatKept<T>(w: Windows<T>, lo: int, hi: int) returns (out: seq<Stamped<T>>)
    requires WellFormed(w)
    ensures out == Unpacked(w, lo, hi, |w.starts|)
  {
    out := [];
    for k := 0 to |w.starts|
      invariant out == Unpacked(w, lo, hi, k)
    {
      out := out + KeptSlice(w, lo, hi, k);
    }
  }

  /** Kept parts that fit in the windows add `hi - lo` samples per window. */
  lemma {:induction false} UnpackedSize<T>(w: Windows<T>, lo: int, hi: int, k: nat)
    requires WellFormed(w) && k <= |w.values| && 0 <= lo <= hi <= |w.time|
    ensures |Unpacked(w, lo, hi, k)| == Offset(k, hi - lo)
  {
    if k > 0 {
      UnpackedSize(w, lo, hi, k - 1);
      KeptSliceLength(w, lo, hi, k - 1);
      OffsetStep(k - 1, hi - lo);
    }
  }

  lemma KeptSliceLength<T>(w: Windows<T>, lo: int, hi: int, k: nat)
    requires WellFormed(w) && k < |w.values| && 0 <= lo <= hi <= |w.time|
    ensures |KeptSlice(w, lo, hi, k)| == hi - lo
  {
  }

  // ---------------------------------------------------------------------------
  // The round trip

  /** Each sample is one year (`daysInYear` days) before the sample `n` later. */
  ghost predicate YearlyPeriodic<T>(da: seq<Stamped<T>>, n: int, daysInYear: int) {
    forall i, j :: 0 <= i <= j < |da| && j == i + n ==> da[j].time == da[i].time + daysInYear
  }

  lemma OffsetNonNegative(k: nat, stride: int)
    requires stride >= 0
    ensures Offset(k, stride) >= 0
  {
  }

  lemma OffsetRegroup(k: nat, step: nat, n: int)
    ensures Offset(k, n * step) == Offset(k * step, n)
    ensures Offset(k, step * n) == Offset(k * step, n)
  {
    assert k * (n * step) == (k * step) * n;
  }

  /** `m` years later is `m * daysInYear` days later. */
  lemma {:induction false} PeriodicShift<T>(da: seq<Stamped<T>>, n: int, daysInYear: int, i: int, m: nat)
    requires n >= 1 && YearlyPeriodic(da, n, daysInYear)
    requires 0 <= i && i + Offset(m, n) < |da|
    ensures da[i + Offset(m, n)].time == da[i].time + Offset(m, daysInYear)
  {
    if m > 0 {
      OffsetStep(m - 1, n);
      OffsetStep(m - 1, daysInYear);
      OffsetNonNegative(m - 1, n);
      PeriodicShift(da, n, daysInYear, i, m - 1);
      var j := i + Offset(m - 1, n);
      assert j + n == i + Offset(m, n);
      assert da[j + n].time == da[j].time + daysInYear;
    }
  }

  /** Euclidean division is unique: a quotient and remainder in range are the quotient. */
  lemma DivUnique(x: int, d: int, q: int)
    requires d >= 1 && d * q <= x < d * q + d
    ensures x / d == q
  {
    var r := x / d;
    if r < q {
      MulMonotone(r + 1, q, d);
    } else if r > q {
      MulMonotone(q + 1, r, d);
    }
  }

  /** A spacing of exactly `step` year lengths is `step` years. */
  lemma StepOfWholeYears(step: int, daysInYear: int)
    requires step >= 1 && daysInYear >= 1
    ensures TruncDiv(step * daysInYear, daysInYear) == step
  {
    MulAtLeastOne(step, daysInYear);
    DivUnique(step * daysInYear, daysInYear, step);
  }

  /** Exactly `step` years, in samples, less `step` years leave `(window - step) // 2` years on each side. */
  lemma LeftOfWholeYears(window: int, n: int, step: int)
    requires n >= 1 && step <= window
    ensures LeftYears(window * n, n, step) == (window - step) / 2
  {
    var q := (window - step) / 2;
    var x := window * n - step * n;
    assert x == (window - step) * n;
    assert window - step == 2 * q || window - step == 2 * q + 1;
    assert 2 * n * q <= x < 2 * n * q + 2 * n;
    DivUnique(x, 2 * n, q);
  }

  /** A series periodic over `n` samples is periodic over `n * step` samples, by `step` years. */
  lemma PeriodicOverSteps<T>(da: seq<Stamped<T>>, n: int, daysInYear: int, step: int)
    requires n >= 1 && step >= 1 && YearlyPeriodic(da, n, daysInYear)
    ensures YearlyPeriodic(da, n * step, step * daysInYear)
  {
    forall i, j | 0 <= i <= j < |da| && j == i + n * step ensures da[j].time == da[i].time + step * daysInYear {
      PeriodicShift(da, n, daysInYear, i, step);
    }
  }

  /** The window starts of a construction over a series periodic over `stride` samples are `dt` days apart. */
  lemma ConstructedStart<T>(da: seq<Stamped<T>>, N: int, stride: int, dt: int, w: Windows<T>, k: nat)
    requires stride >= 1 && YearlyPeriodic(da, stride, dt) && IsMovingWindow(da, N, stride, w)
    requires k < |w.starts|
    ensures w.starts[k] - w.starts[0] == Offset(k, dt)
  {
    assert 0 <= Offset(k, stride) < |da| && w.starts[k] == da[Offset(k, stride)].time;
    PeriodicShift(da, stride, dt, 0, k);
  }

  /** The window starts of a construction over a periodic series are `step` years apart. */
  lemma ConstructedStarts<T>(da: seq<Stamped<T>>, n: int, daysInYear: int, window: int, step: int, w: Windows<T>)
    requires n >= 1 && step >= 1 && daysInYear >= 1 && window >= 1
    requires YearlyPeriodic(da, n, daysInYear) && IsMovingWindow(da, window * n, n * step, w)
    ensures forall k: nat :: k < |w.starts| ==> w.starts[k] - w.starts[0] == Offset(k, step * daysInYear)
  {
    MulAtLeastOne(n, step);
    PeriodicOverSteps(da, n, daysInYear, step);
    forall k: nat | k < |w.starts| ensures w.starts[k] - w.starts[0] == Offset(k, step * daysInYear) {
      ConstructedStart(da, window * n, n * step, step * daysInYear, w, k);
    }
  }

  /** Hence their spacing is the single value `step` years. */
  lemma ConstructedSteps<T>(da: seq<Stamped<T>>, n: int, daysInYear: int, window: int, step: int, w: Windows<T>)
    requires n >= 1 && step >= 1 && daysInYear >= 1 && window >= 1
    requires YearlyPeriodic(da, n, daysInYear) && IsMovingWindow(da, window * n, n * step, w)
    requires |w.starts| >= 2
    ensures WindowSteps(w.starts) == {step * daysInYear}
  {
    ConstructedStarts(da, n, daysInYear, window, step, w);
    var d := Spacings(w.starts);
    forall k | 0 <= k < |d| ensures d[k] == step * daysInYear {
      OffsetStep(k, step * daysInYear);
    }
    var steps := WindowSteps(w.starts);
    assert d[0] in steps;
    forall x | x in steps ensures x == step * daysInYear {
      var k :| 0 <= k < |d| && x == d[k];
    }
  }

  /** The plan read back from a construction keeps years `[(window - step) / 2, (window - step) / 2 + step)`. */
  lemma ConstructedPlan<T>(da: seq<Stamped<T>>, s: Sampling, n: int, window: int, step: int, w: Windows<T>)
    requires s.mult >= 1 && s.maxDoy >= 1 && NumberOfElementsByYear(s) == Success(n)
    requires 1 <= step <= window
    requires YearlyPeriodic(da, n, s.maxDoy) && IsMovingWindow(da, window * n, n * step, w)
    requires |w.starts| >= 2
    ensures UnpackPlan(w, s) == Success(((window - step) / 2, step))
  {
    ElementsByYearPositive(s);
    var spacing := Spacings(w.starts)[0];
    ConstructedSteps(da, n, s.maxDoy, window, step, w);
    assert spacing == step * s.maxDoy by {
      assert spacing in WindowSteps(w.starts);
    }
    StepOfWholeYears(step, s.maxDoy);
    assert |w.time| == window * n by {
      assert Offset(1, n * step) + window * n <= |da|;
    }
    LeftOfWholeYears(window, n, step);
    PlanIs(w, s, n, (window - step) / 2, step);
  }

  /** Sample `i` of window `k` of a construction: the first window's time, the value `Offset(k, stride)` samples on. */
  lemma WindowSample<T>(da: seq<Stamped<T>>, N: int, stride: int, w: Windows<T>, k: nat, i: int)
    requires IsMovingWindow(da, N, stride, w) && k < |w.values| && stride >= 0
    requires N <= |da| && 0 <= i < N
    ensures 0 <= Offset(k, stride) + i < |da| && i < |w.time| && i < |w.values[k]|
    ensures w.time[i] == da[i].time && w.values[k][i] == da[Offset(k, stride) + i].value
  {
    OffsetNonNegative(k, stride);
    if k == 0 {
      assert w.values[0] == ValuesOf(da[..N]);
    } else {
      assert w.values[k] == ValuesOf(da[Offset(k, stride)..Offset(k, stride) + N]);
    }
  }

  /** A kept part whose every sample, shifted, is the sample `off` further on in `da` is that run `da[a .. b]` of `da`. */
  lemma KeptSliceIs<T>(da: seq<Stamped<T>>, w: Windows<T>, k: nat, lo: int, hi: int, len: int, off: int, a: int, b: int)
    requires WellFormed(w) && k < |w.starts|
    requires 0 <= lo <= hi == lo + len <= |w.time| && 0 <= off && off + lo + len <= |da|
    requires a == off + lo && b == off + lo + len
    requires forall i :: lo <= i < lo + len ==>
      Stamped(Window(w, k)[i].time + (w.starts[k] - w.starts[0]), Window(w, k)[i].value) == da[off + i]
    ensures 0 <= a <= b <= |da| && KeptSlice(w, lo, hi, k) == da[a .. b]
  {
    var kept, want := KeptSlice(w, lo, hi, k), da[a .. b];
    assert kept == Shift(Window(w, k)[lo..lo + len], w.starts[k] - w.starts[0]);
    forall j | 0 <= j < len ensures kept[j] == want[j] {
      assert kept[j] == Stamped(Window(w, k)[lo + j].time + (w.starts[k] - w.starts[0]), Window(w, k)[lo + j].value);
    }
  }

  /**
   * Over a series periodic over `stride` samples by `dt` days, every window
   * of a construction lies inside the series, and its samples, moved by the
   * window's distance from the first, are the samples `Offset(k, stride)`
   * further on.
   */
  lemma ShiftedWindows<T>(da: seq<Stamped<T>>, N: int, stride: int, dt: int, w: Windows<T>)
    requires PeriodicConstruction(da, N, stride, dt, w)
    ensures |w.time| == N >= 0 && |w.starts| >= 1
    ensures forall k :: 0 <= k < |w.starts| ==> 0 <= Offset(k, stride) && Offset(k, stride) + N <= |da|
    ensures forall k, i {:trigger Window(w, k)[i]} :: 0 <= k < |w.starts| && 0 <= i < N ==>
      Stamped(Window(w, k)[i].time + (w.starts[k] - w.starts[0]), Window(w, k)[i].value) == da[Offset(k, stride) + i]
  {
    assert |w.time| == N by {
      WindowSample(da, N, stride, w, 0, 0);
    }
    forall k | 0 <= k < |w.starts| ensures 0 <= Offset(k, stride) && Offset(k, stride) + N <= |da| {
      OffsetNonNegative(k, stride);
      WindowStartsInside(da, N, stride, w, k);
    }
    forall k | 0 <= k < |w.starts| {
      ShiftedWindow(da, N, stride, dt, w, k);
    }
  }

  /** One window of `ShiftedWindows`. */
  lemma ShiftedWindow<T>(da: seq<Stamped<T>>, N: int, stride: int, dt: int, w: Windows<T>, k: nat)
    requires PeriodicConstruction(da, N, stride, dt, w) && k < |w.starts|
    ensures forall i {:trigger Window(w, k)[i]} :: 0 <= i < N ==>
      i < |w.time| && 0 <= Offset(k, stride) + i < |da| &&
      Stamped(Window(w, k)[i].time + (w.starts[k] - w.starts[0]), Window(w, k)[i].value) == da[Offset(k, stride) + i]
  {
    ConstructedStart(da, N, stride, dt, w, k);
    forall i | 0 <= i < N
      ensures i < |w.time| && 0 <= Offset(k, stride) + i < |da| &&
        Stamped(Window(w, k)[i].time + Offset(k, dt), Window(w, k)[i].value) == da[Offset(k, stride) + i]
    {
      ShiftedSample(da, N, stride, dt, w, k, i);
    }
  }

  /** Sample `i` of window `k`, moved forward by `Offset(k, dt)` days, is sample `Offset(k, stride) + i` of the series. */
  lemma ShiftedSample<T>(da: seq<Stamped<T>>, N: int, stride: int, dt: int, w: Windows<T>, k: nat, i: int)
    requires stride >= 1 && N <= |da| && 0 <= i < N
    requires YearlyPeriodic(da, stride, dt) && IsMovingWindow(da, N, stride, w)
    requires WellFormed(w) && k < |w.starts|
    ensures 0 <= Offset(k, stride) + i < |da| && i < |w.time|
    ensures Stamped(Window(w, k)[i].time + Offset(k, dt), Window(w, k)[i].value) == da[Offset(k, stride) + i]
  {
    WindowSample(da, N, stride, w, k, i);
    PeriodicShift(da, stride, dt, i, k);
  }

  /** Every window of a construction lies inside the series. */
  lemma WindowStartsInside<T>(da: seq<Stamped<T>>, N: int, stride: int, w: Windows<T>, k: nat)
    requires IsMovingWindow(da, N, stride, w) && k < |w.values| && stride >= 0 && N <= |da|
    ensures Offset(k, stride) + N <= |da|
  {
    if k >= 1 {
      assert 0 <= Offset(k, stride) <= Offset(k, stride) + N <= |da|;
    }
  }

  lemma SplitAt<T>(s: seq<T>, a: int, b: int, c: int)
    requires 0 <= a <= b <= c <= |s|
    ensures s[a..c] == s[a..b] + s[b..c]
  {
  }

  /**
   * Kept parts that are consecutive runs of a series concatenate to one run:
   * part `j` is `da[at[j] .. at[j + 1]]`, each run starting where the last ended.
   */
  lemma {:induction false} UnpackedRun<T>(da: seq<Stamped<T>>, w: Windows<T>, lo: int, hi: int, at: seq<int>, k: nat)
    requires WellFormed(w) && k <= |w.starts| && k < |at| && 0 <= at[0] && at[k] <= |da|
    requires forall i, j :: 0 <= i <= j <= k ==> at[i] <= at[j]
    requires forall j {:trigger KeptSlice(w, lo, hi, j)} :: 0 <= j < k ==>
      KeptSlice(w, lo, hi, j) == da[at[j] .. at[j + 1]]
    ensures Unpacked(w, lo, hi, k) == da[at[0] .. at[k]]
  {
    if k > 0 {
      assert KeptSlice(w, lo, hi, k - 1) == da[at[k - 1] .. at[k]];
      assert at[0] <= at[k - 1] <= at[k];
      UnpackedRun(da, w, lo, hi, at, k - 1);
      SplitAt(da, at[0], at[k - 1], at[k]);
    }
  }

  /**
   * Construct then unpack: over a series whose every sample is one year
   * before the sample `n` later, with at least two windows and a step no
   * longer than the window, unpacking gives back the contiguous run of the
   * original that starts at year `left = (window - step) / 2` and holds
   * `step` years per window.
   */
  lemma ConstructUnpackRoundTrip<T>(da: seq<Stamped<T>>, s: Sampling, n: int, window: int, step: int, w: Windows<T>)
    requires s.mult >= 1 && s.maxDoy >= 1 && NumberOfElementsByYear(s) == Success(n)
    requires 1 <= step <= window
    requires YearlyPeriodic(da, n, s.maxDoy) && IsMovingWindow(da, window * n, n * step, w)
    requires |w.values| >= 2
    ensures WellFormed(w)
    ensures UnpackPlan(w, s) == Success(((window - step) / 2, step))
    ensures 0 <= (window - step) / 2 * n <= (window - step) / 2 * n + Offset(|w.starts|, n * step) <= |da|
    ensures Unpacked(w, (window - step) / 2 * n, ((window - step) / 2 + step) * n, |w.starts|) ==
            da[(window - step) / 2 * n .. (window - step) / 2 * n + Offset(|w.starts|, n * step)]
  {
    ElementsByYearPositive(s);
    MulAtLeastOne(window, n);
    MulAtLeastOne(n, step);
    ConstructedWellFormed(da, window * n, n * step, w);
    ConstructedPlan(da, s, n, window, step, w);
    ConstructedUnpacked(da, n, s.maxDoy, window, step, w);
  }

  /** The unpacking half of the round trip: the kept parts of a construction form one run of the series. */
  lemma ConstructedUnpacked<T>(da: seq<Stamped<T>>, n: int, daysInYear: int, window: int, step: int, w: Windows<T>)
    requires n >= 1 && daysInYear >= 1 && 1 <= step <= window
    requires YearlyPeriodic(da, n, daysInYear) && IsMovingWindow(da, window * n, n * step, w)
    requires |w.values| >= 2
    ensures WellFormed(w)
    ensures 0 <= (window - step) / 2 * n <= (window - step) / 2 * n + Offset(|w.starts|, n * step) <= |da|
    ensures Unpacked(w, (window - step) / 2 * n, ((window - step) / 2 + step) * n, |w.starts|) ==
            da[(window - step) / 2 * n .. (window - step) / 2 * n + Offset(|w.starts|, n * step)]
  {
    var left := (window - step) / 2;
    var lo, hi, N, stride := left * n, (left + step) * n, window * n, n * step;
    MulAtLeastOne(window, n);
    MulAtLeastOne(n, step);
    ConstructedWellFormed(da, N, stride, w);
    KeptBounds(window, step, n, lo, hi, N, stride);
    PeriodicOverSteps(da, n, daysInYear, step);
    UnpackedConstruction(da, N, stride, step * daysInYear, w, lo, hi);
  }

  /** The kept parts `[lo, lo + stride)` of all windows of a construction concatenate to one run of the series. */
  lemma UnpackedConstruction<T>(da: seq<Stamped<T>>, N: int, stride: int, dt: int, w: Windows<T>, lo: int, hi: int)
    requires stride >= 1 && 0 <= lo && hi == lo + stride <= N <= |da|
    requires YearlyPeriodic(da, stride, dt) && IsMovingWindow(da, N, stride, w) && WellFormed(w)
    ensures 0 <= lo + Offset(|w.starts|, stride) <= |da|
    ensures Unpacked(w, lo, hi, |w.starts|) == da[lo .. lo + Offset(|w.starts|, stride)]
  {
    ShiftedWindows(da, N, stride, dt, w);
    KeptRuns(da, N, stride, w, lo, hi);
    UnpackedOfRuns(da, w, lo, hi, stride);
  }

  /** Kept parts that are the consecutive runs of `stride` samples of a series from `lo` on concatenate to one run. */
  lemma UnpackedOfRuns<T>(da: seq<Stamped<T>>, w: Windows<T>, lo: int, hi: int, stride: int)
    requires stride >= 1 && 0 <= lo && WellFormed(w) && lo + Offset(|w.starts|, stride) <= |da|
    requires forall j {:trigger KeptSlice(w, lo, hi, j)} :: 0 <= j < |w.starts| ==>
      0 <= lo + Offset(j, stride) <= lo + Offset(j + 1, stride) <= |da| &&
      KeptSlice(w, lo, hi, j) == da[lo + Offset(j, stride) .. lo + Offset(j + 1, stride)]
    ensures 0 <= lo + Offset(|w.starts|, stride)
    ensures Unpacked(w, lo, hi, |w.starts|) == da[lo .. lo + Offset(|w.starts|, stride)]
  {
    var K := |w.starts|;
    var at := RunStarts(lo, stride, K);
    UnpackedRun(da, w, lo, hi, at, K);
  }

  /** Where run `j` of the unpacked series starts: `lo + Offset(j, stride)`, for `j` up to `K`. */
  lemma RunStarts(lo: int, stride: int, K: nat) returns (at: seq<int>)
    requires stride >= 1
    ensures |at| == K + 1 && at[0] == lo && at[K] == lo + Offset(K, stride)
    ensures forall j :: 0 <= j <= K ==> at[j] == lo + Offset(j, stride)
    ensures forall i, j :: 0 <= i <= j <= K ==> at[i] <= at[j]
  {
    at := seq(K + 1, j requires 0 <= j <= K => lo + Offset(j, stride));
    forall i, j | 0 <= i <= j <= K ensures at[i] <= at[j] {
      MulMonotone(i, j, stride);
    }
  }

  /** A moving window construction over a series periodic over `stride` samples by `dt` days. */
  ghost predicate PeriodicConstruction<T>(da: seq<Stamped<T>>, N: int, stride: int, dt: int, w: Windows<T>) {
    stride >= 1 && 1 <= N <= |da| && YearlyPeriodic(da, stride, dt) && IsMovingWindow(da, N, stride, w) && WellFormed(w)
  }

  /**
   * Each window's kept part `[lo, lo + stride)` is the run of the series
   * between consecutive run starts, given the windows' samples as
   * `ShiftedWindows` states them.
   */
  lemma KeptRuns<T>(da: seq<Stamped<T>>, N: int, stride: int, w: Windows<T>, lo: int, hi: int)
    requires WellFormed(w) && |w.time| == N && |w.starts| >= 1
    requires stride >= 1 && 0 <= lo && hi == lo + stride <= N
    requires forall k :: 0 <= k < |w.starts| ==> 0 <= Offset(k, stride) && Offset(k, stride) + N <= |da|
    requires forall k, i {:trigger Window(w, k)[i]} :: 0 <= k < |w.starts| && 0 <= i < N ==>
      Stamped(Window(w, k)[i].time + (w.starts[k] - w.starts[0]), Window(w, k)[i].value) == da[Offset(k, stride) + i]
    ensures forall j {:trigger KeptSlice(w, lo, hi, j)} :: 0 <= j < |w.starts| ==>
      0 <= lo + Offset(j, stride) <= lo + Offset(j + 1, stride) <= |da| &&
      KeptSlice(w, lo, hi, j) == da[lo + Offset(j, stride) .. lo + Offset(j + 1, stride)]
    ensures lo + Offset(|w.starts|, stride) <= |da|
  {
    forall j {:trigger KeptSlice(w, lo, hi, j)} | 0 <= j < |w.starts|
      ensures 0 <= lo + Offset(j, stride) <= lo + Offset(j + 1, stride) <= |da| &&
        KeptSlice(w, lo, hi, j) == da[lo + Offset(j, stride) .. lo + Offset(j + 1, stride)]
    {
      OffsetStep(j, stride);
      KeptSliceIs(da, w, j, lo, hi, stride, Offset(j, stride), lo + Offset(j, stride), lo + Offset(j + 1, stride));
    }
    OffsetStep(|w.starts| - 1, stride);
  }

  /** A construction with at least two windows is well formed, and its time axis is one full window. */
  lemma ConstructedWellFormed<T>(da: seq<Stamped<T>>, N: int, stride: int, w: Windows<T>)
    requires N >= 1 && stride >= 1 && IsMovingWindow(da, N, stride, w) && |w.values| >= 2
    ensures WellFormed(w) && N <= |da| && |w.time| == N
  {
    assert Offset(1, stride) + N <= |da|;
    forall k | 0 <= k < |w.values| ensures |w.values[k]| == |w.time| {
      if k >= 1 { assert w.values[k] == ValuesOf(da[Offset(k, stride)..Offset(k, stride) + N]); }
    }
  }

  /** The kept samples `[left * n, (left + step) * n)` lie inside a window of `window * n` samples. */
  lemma KeptBounds(window: int, step: int, n: int, lo: int, hi: int, N: int, stride: int)
    requires 1 <= step <= window && n >= 1
    requires lo == (window - step) / 2 * n && hi == ((window - step) / 2 + step) * n
    requires N == window * n && stride == n * step
    ensures 0 <= lo && hi == lo + stride <= N
  {
    var left := (window - step) / 2;
    assert 0 <= left && left + step <= window;
    MulMonotone(left + step, window, n);
    MulMonotone(0, left, n);
    assert (left + step) * n == left * n + n * step;
  }

  lemma MulMonotone(a: int, b: int, n: int)
    requires a <= b && n >= 1
    ensures a * n <= b * n
  {
    assert b * n - a * n == (b - a) * n;
  }

  lemma MulStrictMonotone(a: int, b: int, n: int)
    requires a < b && n >= 1
    ensures a * n < b * n
  {
    MulMonotone(a + 1, b, n);
    assert (a + 1) * n == a * n + n;
  }

  lemma MulCancel(a: int, b: int, n: int)
    requires n >= 1 && a * n <= b * n
    ensures a <= b
  {
    if a > b { MulStrictMonotone(b, a, n); }
  }

  /**
   * When the years left after the first window divide by the step, there
   * are `(years - window) / step + 1` windows, and the unpacked series is
   * `window - step` years shorter than the original.
   */
  lemma UnpackedLength<T>(da: seq<Stamped<T>>, n: int, years: int, window: int, step: int, w: Windows<T>)
    requires n >= 1 && 1 <= step <= window <= years && |da| == years * n
    requires (years - window) % step == 0
    requires IsMovingWindow(da, window * n, n * step, w)
    ensures |w.starts| == (years - window) / step + 1
    ensures Offset(|w.starts|, n * step) == |da| - (window - step) * n
  {
    var K, m := |w.starts|, (years - window) / step;
    assert years - window == m * step;
    WindowCountBounds(da, n, years, window, step, w);
    MulStrictCancel(K, m, step);
    if K >= 2 {
      MulCancel(K - 1, m, step);
    }
    assert K == m + 1;
    assert K * step == (years - window) + step by { Distribute(m, 1, step); }
    OffsetRegroup(K, step, n);
    assert Offset(K * step, n) == (years - (window - step)) * n;
    SubDistribute(years, window - step, n);
  }

  lemma SubDistribute(a: int, b: int, n: int)
    ensures (a - b) * n == a * n - b * n
  {
  }

  lemma MulStrictCancel(a: int, b: int, n: int)
    requires n >= 1 && a * n > b * n
    ensures a > b
  {
    if a <= b { MulMonotone(a, b, n); }
  }

  lemma Distribute(a: int, b: int, n: int)
    ensures (a + b) * n == a * n + b * n
  {
  }

  /** The windows of a construction over `years * n` samples, counted in years. */
  lemma WindowCountBounds<T>(da: seq<Stamped<T>>, n: int, years: int, window: int, step: int, w: Windows<T>)
    requires n >= 1 && 1 <= step && 1 <= window <= years && |da| == years * n
    requires IsMovingWindow(da, window * n, n * step, w)
    ensures |w.starts| * step + window > years
    ensures |w.starts| >= 2 ==> (|w.starts| - 1) * step + window <= years
  {
    var K := |w.starts|;
    OffsetRegroup(K, step, n);
    Distribute(K * step, window, n);
    MulStrictCancel(K * step + window, years, n);
    if K >= 2 {
      OffsetRegroup(K - 1, step, n);
      assert Offset(K - 1, n * step) + window * n <= |da|;
      Distribute((K - 1) * step, window, n);
      MulCancel((K - 1) * step + window, years, n);
    }
  }
}
