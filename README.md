# xclim generic indices and sdba processing, modelled in Dafny

This project models two parts of xclim, a library of climate indices built on xarray.

The first part is the generic indices of `xclim/indices/generic.py`:

- time selection (`select_time` with `get_doys`) and the default annual frequency (`default_freq`);
- operator lookup (`binary_ops`, `get_op`) and comparison (`compare`);
- per-period counts (`threshold_count`, `domain_count`);
- signed and clipped sums (`temperature_sum`, `degree_days`);
- aggregation between two dates within every resampling period (`aggregate_between_dates`, with `_get_days` and its frequency inference).

The second part is the pre-processing of the bias-adjustment package, `xclim/sdba/processing.py`:

- the number of samples per year (`_get_number_of_elements_by_year`);
- moving yearly windows, built and unpacked (`construct_moving_yearly_window`, `unpack_moving_yearly_window`);
- stacking a dataset's variables into one array and back (`stack_variables`, `unstack_variables`);
- standardization and its inverse (`standardize`, `unstandardize`);
- the replacement rule of `jitter_under_thresh` and `jitter_over_thresh`.

A series is a sequence of samples. Each sample carries a time in days and a value that is either NaN or a real number. The calendar accessors the array library provides are given inputs: month, day of year, the day of year in a uniform calendar, and "%m-%d". A resampling is a sequence of periods, each with its base time and its samples. Comparisons follow NumPy: every comparison with NaN is false except `!=`. Reductions skip NaN. A sum of nothing is 0; the minimum, maximum and mean of nothing are NaN.

Python dictionaries of attributes are association lists in insertion order with distinct keys (`Dicts`). Errors the source raises are the `Failure` case of a `Result` (`Wrappers`).

The source's loops are methods with loop invariants, each proved equal to a specification function:

- the frequency inference loop, the period loop and the in-place `days[days < 0] = nan` of `aggregate_between_dates`, the last on an `array`;
- the `while` loop of `construct_moving_yearly_window`;
- the concatenation loop of `unpack_moving_yearly_window`;
- the nested `setdefault` loops of `stack_variables`;
- the restoration loops of `unstack_variables`.

The properties are lemmas about those functions.

Modules: `Wrappers`, `TimeSeries`, `Operators`, `Selection`, `Counting`, `Aggregation` (generic indices); `Dicts`, `Sampling`, `MovingWindow`, `Stacking`, `Standardization`, `Jitter` (processing).

## Model

| member | source | states |
|---|---|---|
| Operators.GetOp | xclim/indices/generic.py:239-250 | Exactly the six symbols and six mnemonics resolve, each to the operator it spells; any other name is a ValueError. |
| Operators.GetOpSpellings | xclim/indices/generic.py:59 | Both spellings of every operator resolve to it, and `binary_ops` maps each symbol to its mnemonic. |
| Operators.Compare | xclim/indices/generic.py:253-270 | The mask has one entry per value and is the named comparison, false on NaN except for `!=`. An unknown operator fails exactly as `get_op` does. |
| Operators.ComplementaryOps | xclim/indices/generic.py:253-270 | On numbers `<=` is the complement of `>` and `>=` of `<`; on NaN all four are false. |
| TimeSeries.SeasonOf | xclim/indices/generic.py:141 | Each month 1..12 is in exactly the one season that lists it: DJF for 12, 1, 2, MAM for 3, 4, 5, JJA for 6, 7, 8, SON for 9, 10, 11. |
| Operators.Holds | xclim/indices/generic.py:270 | A comparison with NaN holds only for `!=`. |
| Selection.NumGiven | xclim/indices/generic.py:126 | The number of selection arguments given, at most four, and zero exactly when none is given. |
| Selection.SelectedByBounds | xclim/indices/generic.py:138-169 | `Selected` on day-of-year or date bounds: the day (or the date's day of year) lies in `[start, end]`, or, when `start > end`, in `[start, 366]` or `[0, end]`. |
| Selection.GetDoys | xclim/indices/generic.py:133-136 | A day is in the result iff it lies in `[start, end]`, or, when `start > end`, in `[start, 366]` or `[0, end]`. |
| Selection.WrappedDoyBounds | xclim/indices/generic.py:133-136 | Bounds (335, 59) keep, of days 1..365, exactly 335..365 and 1..59. |
| Selection.Mask | xclim/indices/generic.py:138-173 | `where(mask)` keeps the length, keeps selected samples and sets the value of the others to NaN. |
| Selection.KeepMembers | xclim/indices/generic.py:173 | `Keep`, the `where(mask, drop=True)` of the source, holds a sample iff the series holds it and it is selected; the result is never longer than the series. |
| Selection.KeepAppend | xclim/indices/generic.py:173 | Dropping commutes with concatenation, so the kept samples stay in their original order. |
| Selection.KeepAll | xclim/indices/generic.py:173 | A series whose samples are all selected is kept whole. |
| Selection.KeepNone | xclim/indices/generic.py:173 | A series with no selected sample is dropped entirely. |
| Selection.SelectTime | xclim/indices/generic.py:126-173 | More than one selection argument is a ValueError, none returns the input unchanged. One argument masks or drops the unselected samples (by season, month, day-of-year window or date window); with `drop` the result is `Keep` of the series. |
| Selection.WrappedSelectionOfOneYear | xclim/indices/generic.py:148-149 | On a 365-day year, `doy_bounds=(335, 59)` with `drop=True` leaves days 1..59 then 335..365, in order. |
| Selection.MonthOfLeapDoy | xclim/indices/generic.py:232 | The month whose span in leap year 2004 holds the given day of year. |
| Selection.LeapMonthEnds | xclim/indices/generic.py:232 | The month ends of 2004 that the day-of-year lookup uses. |
| Selection.PyIntOfOne | xclim/indices/generic.py:234 | `int` of one character succeeds iff it is an ASCII digit, giving its value. |
| Selection.PyIntOfTwo | xclim/indices/generic.py:234 | `int` of two characters succeeds iff they are two digits (10a + b), a space, "+" or "-" then a digit (b, b, -b), or a digit then a space (a). |
| Selection.ParseMonthPrefix | xclim/indices/generic.py:234 | `int(s[:2])`: an empty string fails; one character succeeds iff it is a digit, with its value; two characters succeed exactly in the shapes `int` accepts (two digits, whitespace or a sign before a digit, a digit before whitespace), with those values, always in -9..99. |
| Selection.ParseMonthPrefixExamples | xclim/indices/generic.py:234 | "07-01", " 7-01" and "+7-01" give 7, "-1-01" gives -1, "7" gives 7; "7-01" and "July" fail. |
| Selection.AnnualAnchor | xclim/indices/generic.py:235 | "AS-" plus the month's abbreviation for months 1..12; a KeyError otherwise. |
| Selection.DefaultFreq | xclim/indices/generic.py:222-236 | "AS-JAN" with no indexer. Otherwise, from the last indexer: "AS-DEC" for seasons; the first month listed; the month holding the start day in 2004; or, when `int` parses the first two characters of the start date as a month 1..12, "AS-" and that month's abbreviation and fails otherwise. |
| Selection.DefaultFreqExamples | xclim/indices/generic.py:222-236 | Day 335 gives "AS-NOV", day 336 "AS-DEC", day 60 "AS-FEB", "07-01" "AS-JUL", months [6, 7, 8] "AS-JUN". |
| Selection.DefaultFreqDateExamples | xclim/indices/generic.py:233-235 | Start date "07-01" gives "AS-JUL"; start date "-1-01" parses as month -1, a KeyError. |
| Counting.CountIf | xclim/indices/generic.py:295 | The number of samples of a period whose value satisfies the comparison, at most the period's length. |
| Counting.ThresholdCount | xclim/indices/generic.py:273-296 | One count per period, each the size of the set of positions satisfying the operator and at most the period's length. An unknown operator fails. |
| Counting.CountDomain | xclim/indices/generic.py:321 | The number of samples with `low < v <= high`. |
| Counting.DomainCount | xclim/indices/generic.py:299-322 | One count per period of the samples in `(low, high]`. |
| Counting.DomainCountAsThresholds | xclim/indices/generic.py:321-322 | The count in `(low, high]` is the count above `low` minus the count above `high`. |
| Counting.DomainCountStraddle | xclim/indices/generic.py:321 | Of `low`, a value just above it, `high` and a value above `high`, exactly the middle two are counted. |
| Counting.TemperatureSum | xclim/indices/generic.py:614-645 | An unknown condition fails. Otherwise there is one value per period: `Direction(condition)` (-1 exactly when the string contains "<") times `SumExcess`, the sum of `v - t` over the samples meeting the comparison. Sums are non-negative for the four ordering symbols and for "gt" and "ge". |
| Counting.SumExcess | xclim/indices/generic.py:643 | The sum of `v - t` over the samples meeting the comparison is non-negative for `>` and `>=`, non-positive for `<` and `<=`. |
| Counting.SumExcessGeIsGt | xclim/indices/generic.py:643 | A value equal to the threshold adds nothing, so `>=` and `>` give the same sum. |
| Counting.SumExcessLeIsLt | xclim/indices/generic.py:643 | Likewise `<=` and `<` give the same sum. |
| Counting.Direction | xclim/indices/generic.py:641 | The direction is -1 or 1, and -1 exactly when the condition string contains "<". |
| Counting.TemperatureSumMnemonicNotNegated | xclim/indices/generic.py:641 | "<" and "lt" name the same comparison, yet a sample 1 below the threshold sums to 1 with "<" and to -1 with "lt". |
| Counting.TemperatureSumByOp | xclim/indices/generic.py:614-645 | The sum with its sign chosen by the resolved operator: per period, -1 for `<` and `<=` (whichever spelling) and 1 otherwise, times `SumExcess`; non-negative for all four ordering comparisons. |
| Counting.TemperatureSumAgreesOnSymbols | xclim/indices/generic.py:641 | On the six symbols the corrected sum equals the sum as written. |
| Counting.DegreeDays | xclim/indices/generic.py:804-830 | `max(t - v, 0)` when the condition contains "<", else `max(v - t, 0)` when it contains ">". The result is non-negative, NaN exactly where the input is. Any other condition is NotImplementedError. |
| Counting.DegreesAboveSum | xclim/indices/generic.py:825 | Summed, the degrees above the threshold are the excess of the values above it. |
| Counting.DegreesBelowSum | xclim/indices/generic.py:823 | Summed, the degrees below the threshold are the negated excess of the values below it. |
| Counting.DegreeDaysSumToTemperatureSum | xclim/indices/generic.py:641-644 | For each of ">", ">=", "<" and "<=", and for every period, the degree days of the period sum to its temperature sum for the same condition. |
| Counting.DegreeDaysDifference | xclim/indices/generic.py:822-825 | At every present value, the "<" degree days minus the ">" ones is `t - v`. |
| Aggregation.InferredFreq | xclim/indices/generic.py:751-758 | Succeeds iff exactly one distinct frequency was inferred, and returns it; otherwise ValueError. |
| Aggregation.InferFrequency | xclim/indices/generic.py:743-758 | The loop over both bounds collects their inferred frequencies and returns `InferredFreq` of them. |
| Aggregation.GoodFreqs | xclim/indices/generic.py:751 | The set of non-None frequencies of the two bounds is their distinct inferred frequencies. |
| Aggregation.DistinctFreqsSingleton | xclim/indices/generic.py:751-758 | There is exactly one distinct frequency iff the inference succeeds, and that set is the one it returns. |
| Aggregation.BoundFreq | xclim/indices/generic.py:745-749 | A date string has no time axis, so no frequency (the `AttributeError` branch); a bound array gives its inferred frequency. |
| Aggregation.MatchCount | xclim/indices/generic.py:735 | The number of samples with the given "%m-%d": at most the period's length, zero exactly when none matches. |
| Aggregation.OnlyMatch | xclim/indices/generic.py:735 | With exactly one match, the first match is the only sample with that "%m-%d". |
| Aggregation.FirstMatch | xclim/indices/generic.py:735 | The first sample with the given "%m-%d", or none when no sample has it. |
| Aggregation.GetDays | xclim/indices/generic.py:732-741 | A date string gives the days from the period's first sample to its first match (the only one unless `Ambiguous`), or none when no sample matches. An array gives its value at the period's base time, or none when the base is absent. |
| Aggregation.DaysFromBase | xclim/indices/generic.py:782-783 | Each sample's days since the base time, NaN exactly when negative. |
| Aggregation.DaysSinceBase | xclim/indices/generic.py:782-783 | The in-place loop on a fresh array leaves exactly `DaysFromBase`. |
| Aggregation.Masked | xclim/indices/generic.py:785 | `group.where(...)` keeps one value per sample. |
| Aggregation.MaskedValues | xclim/indices/generic.py:785 | Inside the window `[start, end - 1]` a sample keeps its value; outside it, or with NaN days, it becomes NaN. |
| Aggregation.Reduce | xclim/indices/generic.py:786 | With `skipna` a sum is always a number; a minimum, maximum or mean is NaN exactly when no value is present. |
| Aggregation.MaxPresent | xclim/indices/generic.py:786 | NaN iff no value is present; otherwise a present value bounding every present value from above. |
| Aggregation.MinPresent | xclim/indices/generic.py:786 | NaN iff no value is present; otherwise a present value bounding every present value from below. |
| Aggregation.PeriodAggregate | xclim/indices/generic.py:776-797 | The only errors of one period are IndexError and the ValueError of a date bound matching several samples. |
| Aggregation.PeriodAggregateCases | xclim/indices/generic.py:735-797 | A date bound matching several samples is ValueError. Otherwise the period fails exactly when a bound is missing and the period is empty (IndexError); a missing bound on a non-empty period, a NaN bound or a start after the end gives NaN. |
| Aggregation.AggregatePeriod | xclim/indices/generic.py:774-797 | The loop body computes `PeriodAggregate`. |
| Aggregation.AggregateBetweenDates | xclim/indices/generic.py:703-800 | The frequency is the given one or the inferred one, and inference failure is the result. No period at all is the ValueError of `xr.concat([])`. Otherwise it succeeds iff every period does, giving one `(base time, aggregate)` per period in period order, and a failure is the error of the first failing period. |
| Aggregation.MaxOfWindow | xclim/indices/generic.py:785-786 | A numeric maximum implies both bounds are present and ordered, bounds every sample in the window and is one of them. |
| Aggregation.SumOfNothing | xclim/indices/generic.py:786 | A sum over only NaN is 0. |
| Aggregation.EqualBoundsEmptyWindow | xclim/indices/generic.py:785-786 | Equal start and end select nothing: the sum is 0, the other reductions NaN. |
| Aggregation.OutsideWindowIgnored | xclim/indices/generic.py:785 | Two periods agreeing on times, dates and the values inside the window aggregate alike. |
| Aggregation.SameInputsSameAggregate | xclim/indices/generic.py:776-797 | A period's aggregate is fixed by its base, its length, the ambiguity and days of its bounds and its masked values. |
| Aggregation.MaskedAgree | xclim/indices/generic.py:785 | The mask depends only on the values inside the window. |
| Aggregation.GetDaysSameCalendar | xclim/indices/generic.py:732-741 | The bound's days depend only on the samples' times and dates, not their values. |
| Aggregation.MatchCountSameCalendar | xclim/indices/generic.py:735 | Whether a date bound is ambiguous depends only on the samples' "%m-%d", not their values. |
| Sampling.ElementsInYear | xclim/sdba/processing.py:398 | Q gives 4, M 12, D the year length, H 24 times it, and every other base 1. |
| Sampling.NumberOfElementsByYear | xclim/sdba/processing.py:383-405 | Succeeds iff the calendar is not one of the four the source refuses ("standard", "gregorian", "default", "proleptic_gregorian") and the multiple divides the table entry, returning the quotient. A non-uniform calendar and an uneven division are ValueError, a zero multiple ZeroDivisionError. |
| Sampling.ElementsByYearPositive | xclim/sdba/processing.py:399-405 | With a positive multiple and year length, a successful count is at least 1. |
| Sampling.ElementsByYearExamples | xclim/sdba/processing.py:397-405 | Daily noleap gives 365, 6-hourly 360_day 1440, monthly all_leap 12. |
| Sampling.ElementsByYearRefusals | xclim/sdba/processing.py:390-403 | 7-daily and 2-annual data, and the standard calendar, are refused. |
| MovingWindow.PySlice | xclim/sdba/processing.py:444 | Python slicing: within bounds it is the slice, and a stop past the end is clamped. |
| MovingWindow.ConstructMovingYearlyWindow | xclim/sdba/processing.py:408-460 | The count's errors propagate, and an empty series or a window of 0 years is IndexError. Otherwise the result is a moving window (`IsMovingWindow`) of `window * n` samples every `n * step` samples. |
| MovingWindow.CutWindows | xclim/sdba/processing.py:444-460 | The first window is `da[0:N]`, window k starts at sample `k * stride` and holds exactly `N` samples. All share the first window's times, are labelled by their first time, and no further full window fits. |
| MovingWindow.Spacings | xclim/sdba/processing.py:492 | The differences between consecutive window starts. |
| MovingWindow.UnpackPlan | xclim/sdba/processing.py:479-498 | The count's errors propagate. Success iff exactly one spacing in years exists (single window: IndexError; unequal spacings: ValueError), with `step` the spacing in days over the year length truncated toward zero (`TruncDiv`) and `left` given by `LeftYears`. |
| MovingWindow.StepsOf | xclim/sdba/processing.py:492-495 | No spacing with fewer than two windows; a single distinct spacing is the first one. |
| MovingWindow.LeftYearsCentred | xclim/sdba/processing.py:498 | `left = (samples / n - step) // 2` satisfies `2n * left <= samples - step * n < 2n * left + 2n`: the dropped years split evenly before and after the kept ones. |
| MovingWindow.TruncDivBrackets | xclim/sdba/processing.py:495 | `int(a / b)` rounds toward zero: `b * q <= a < b * q + b` for `a >= 0`, `b * q - b < a <= b * q` otherwise. |
| MovingWindow.UnpackMovingYearlyWindow | xclim/sdba/processing.py:463-510 | Fails as `UnpackPlan` does. Otherwise it concatenates, in window order, samples `[left * n, (left + step) * n)` of every window, each moved by its start's distance from the first window's. |
| MovingWindow.ConcatKept | xclim/sdba/processing.py:503-510 | The loop appends each window's shifted kept slice, giving `Unpacked`. |
| MovingWindow.UnpackedSize | xclim/sdba/processing.py:501-510 | Kept parts inside the windows add `hi - lo` samples per window: `#windows * step * n` for the plan's bounds. |
| MovingWindow.PeriodicShift | xclim/sdba/processing.py:452-455 | Over a series whose samples are one year before the sample `n` later, `m` years on is `m` year lengths later. |
| MovingWindow.ConstructedStarts | xclim/sdba/processing.py:448-455 | The window starts of a construction over such a series are `step` years apart. |
| MovingWindow.ConstructedSteps | xclim/sdba/processing.py:492 | Hence the only spacing between window starts is `step` year lengths. |
| MovingWindow.ConstructedPlan | xclim/sdba/processing.py:479-498 | Unpacking a construction keeps years `[(window - step) / 2, (window - step) / 2 + step)`. |
| MovingWindow.LeftOfWholeYears | xclim/sdba/processing.py:498 | A window of exactly `window` years gives `left = (window - step) // 2`. |
| MovingWindow.StepOfWholeYears | xclim/sdba/processing.py:495 | A spacing of exactly `step` year lengths gives `step`. |
| MovingWindow.WindowSample | xclim/sdba/processing.py:452-454 | Sample i of window k has the first window's time and the value `k * stride` samples on. |
| MovingWindow.ShiftedWindows | xclim/sdba/processing.py:444-457 | Over a series periodic over `stride` samples, every window of a construction lies inside the series. Its samples, moved by its start's distance from the first window's, are the samples `k * stride` further on. |
| MovingWindow.KeptRuns | xclim/sdba/processing.py:503-508 | Hence the shifted kept part `[lo, lo + stride)` of window k is the run `da[lo + k * stride .. lo + (k + 1) * stride]` of the original. |
| MovingWindow.UnpackedRun | xclim/sdba/processing.py:510 | Kept parts that are consecutive runs of a series concatenate to one run. |
| MovingWindow.UnpackedOfRuns | xclim/sdba/processing.py:510 | Kept parts that are the consecutive runs of `stride` samples from `lo` concatenate to `da[lo .. lo + #windows * stride]`. |
| MovingWindow.UnpackedConstruction | xclim/sdba/processing.py:503-510 | The kept parts `[lo, lo + stride)` of all windows form the run `da[lo .. lo + #windows * stride]`. |
| MovingWindow.ConstructUnpackRoundTrip | xclim/sdba/processing.py:408-510 | Construct then unpack, over a periodic series with at least two windows and `step <= window`, gives the plan `((window - step) / 2, step)`. The result is the contiguous run of the original from year `(window - step) / 2`, holding `step` years per window. |
| MovingWindow.ConstructedUnpacked | xclim/sdba/processing.py:503-510 | The unpacking half of that round trip. |
| MovingWindow.ConstructedWellFormed | xclim/sdba/processing.py:444-457 | A construction with two windows or more is rectangular, with a time axis of one full window. |
| MovingWindow.UnpackedLength | xclim/sdba/processing.py:466-467 | When the leftover years divide by the step there are `(years - window) / step + 1` windows, and the unpacked series is `window - step` years shorter than the original. |
| MovingWindow.WindowCountBounds | xclim/sdba/processing.py:450 | The loop stops at the first window that would run past the end, and every emitted window fits. |
| Dicts.GetFinds | xclim/sdba/processing.py:537 | A lookup finds a key iff some entry has it, and returns that entry's value. |
| Dicts.Put | xclim/sdba/processing.py:537 | Assignment sets the key and leaves the others, keeping keys distinct. |
| Dicts.Del | xclim/sdba/processing.py:582 | `del` of an absent key is KeyError. Otherwise it removes exactly that key and keeps keys distinct. |
| Dicts.Items | xclim/sdba/processing.py:588 | Iterating a list yields its items, a string its characters; anything else is TypeError. |
| Stacking.PlaceFound | xclim/sdba/processing.py:537 | `setdefault("_" + name, [None] * nvar)[i] = v` sets entry i of the list met, or of a new list of Nones. |
| Stacking.ColumnBefore | xclim/sdba/processing.py:535-537 | The list under "_" + a after the first i variables: their values of `a`, None elsewhere. |
| Stacking.GatheredStep | xclim/sdba/processing.py:536-537 | One inner step keeps the gathered dictionary holding exactly the columns seen so far. |
| Stacking.GatheredBefore | xclim/sdba/processing.py:535-537 | After the first i variables the dictionary holds exactly their columns. |
| Stacking.GatheredAt | xclim/sdba/processing.py:535-537 | The same after the first j attributes of variable i. |
| Stacking.Stacked | xclim/sdba/processing.py:533-552 | A dataset without data variables is the ValueError of `xr.concat` of nothing. Otherwise the stacked array is named "multivariate", has one coordinate named `dim` labelled with the variables' names and flagged `is_variables`, one row per variable, and the dataset's attributes with `units` set to "". |
| Stacking.StackedAttrLists | xclim/sdba/processing.py:533-541 | The stacked coordinate has `is_variables` True and, for every attribute name `a` of any variable, "_" + a with one entry per variable (its value of `a`, or None); no other key. |
| Stacking.StackVariables | xclim/sdba/processing.py:513-552 | The nested loops, then the concatenation, give exactly `Stacked`: ValueError with no data variables, otherwise the array named "multivariate" with one row per variable and the dataset's attributes with `units` "". |
| Stacking.GatherVariable | xclim/sdba/processing.py:536-537 | The inner loop over one variable's attributes, in order. |
| Stacking.FlaggedCoord | xclim/sdba/processing.py:572-574 | The first coordinate, in order, with a truthy `is_variables`, or none when no coordinate has one. |
| Stacking.FindDim | xclim/sdba/processing.py:571-576 | The given dimension, else the first flagged coordinate's. ValueError when none is flagged. |
| Stacking.Unstacked | xclim/sdba/processing.py:555-592 | No flagged coordinate without a given dimension is ValueError. A success needed `units` on the array and keeps every other array attribute on the dataset, and reading the lists as written needs a coordinate named "variables". |
| Stacking.Selected | xclim/sdba/processing.py:578-581 | One variable per label, named by it. |
| Stacking.CoordNamed | xclim/sdba/processing.py:579 | `da[dim]`: a coordinate of that name, or none when no coordinate has it. |
| Stacking.IndexOf | xclim/sdba/processing.py:590 | `ds[name]`: the position of a variable of that name, or none when no variable has it. |
| Stacking.SetAttr | xclim/sdba/processing.py:590 | Writing an attribute fails only with KeyError on the variable's name, and keeps the number of variables. |
| Stacking.SetAttrWrites | xclim/sdba/processing.py:590 | It fails iff no variable has that name. Otherwise one variable of that name gets the attribute set, its name, data and other attributes unchanged, and every other variable is unchanged. |
| Stacking.RestoreList | xclim/sdba/processing.py:588-590 | The inner loop over the pairs of one list and the labels computes `AfterZip`. |
| Stacking.RestoreAttributes | xclim/sdba/processing.py:585-590 | The outer loop over the entries of the lists' dictionary computes `AfterKeys`. |
| Stacking.UnstackVariables | xclim/sdba/processing.py:555-592 | The method computes `Unstacked`. |
| Stacking.FailureSticks | xclim/sdba/processing.py:590 | Once writing an attribute fails with KeyError, the restoration fails with it. |
| Stacking.RestoreWritesBack | xclim/sdba/processing.py:584-590 | Over variables the labels name, restoration never fails when every prefixed entry is iterable. Each variable then holds, for every attribute, the non-None item at its position, or its original value; names and values are untouched. |
| Stacking.StackUnstackRoundTrip | xclim/sdba/processing.py:513-592 | A dataset with at least one data variable stacks, and unstacking it gives back its variables in order with names and data. Every non-None attribute is restored; missing ones come from the stacked array. The dataset's attributes return without `units`. |
| Stacking.UnstackOneCoord | xclim/sdba/processing.py:571-592 | With a single flagged coordinate the result is the selected variables with that coordinate's lists written back. |
| Stacking.StackedIterable | xclim/sdba/processing.py:537 | Every prefixed entry of the stacked coordinate is a list. |
| Stacking.StackedWritten | xclim/sdba/processing.py:537-589 | What the stacked coordinate writes back onto variable r is its own non-None value of each attribute. |
| Stacking.UnstackOtherDimensionName | xclim/sdba/processing.py:585 | Stacked along "vars", a dataset cannot be unstacked as written (AttributeError on `variables`), while reading the lists from the stacked coordinate succeeds. |
| Standardization.Centre | xclim/sdba/processing.py:245 | `(v - mean) / std` is present iff all three are, and then undoes to `v` under `std * r + mean`. |
| Standardization.Rescale | xclim/sdba/processing.py:252 | `std * v + mean` is present iff all three are, and with a non-zero scale `(r - mean) / std` gives `v` back. |
| Standardization.Mean | xclim/sdba/processing.py:241 | NaN iff no value is present; otherwise the value that, times the count, is the sum. |
| Standardization.Standardize | xclim/sdba/processing.py:228-245 | Returns the series, the mean used (the given one, or the series' own) and the scale. A value is present iff it, the mean and the scale are. |
| Standardization.Unstandardize | xclim/sdba/processing.py:249-252 | Same length; a value is present iff it, the mean and the scale are. |
| Standardization.UnstandardizeStandardize | xclim/sdba/processing.py:240-252 | With a numeric mean (given or computed) and a non-zero scale, unstandardizing the standardized series gives the series back. |
| Standardization.SumShifted | xclim/sdba/processing.py:245 | Subtracting `m` from every present value takes `m` off the sum once per present value. |
| Standardization.SumScaled | xclim/sdba/processing.py:245 | Scaling every present value by `k` scales the sum by `k`. |
| Standardization.CentredIsScaledShift | xclim/sdba/processing.py:245 | `(v - m) / s` is shifting by `m`, then scaling by `1 / s`. |
| Standardization.CentredOnMean | xclim/sdba/processing.py:241-245 | Centred on its own mean, a series sums to zero and keeps its present values. |
| Standardization.StandardizedMeanIsZero | xclim/sdba/processing.py:240-245 | Standardized with its own mean, a series has mean zero. |
| Jitter.JitterUnderThresh | xclim/sdba/processing.py:128 | Exactly the present values under the threshold become the noise at their position; every other value, NaN included, is kept. |
| Jitter.JitterOverThresh | xclim/sdba/processing.py:163 | Exactly the present values over the threshold become the noise at their position; every other value is kept. |
| Jitter.JitterUnderBounds | xclim/sdba/processing.py:120-128 | With noise from `[eps, thresh)`, the same positions are under the threshold before and after, and no present value is under `eps`. |
| Jitter.JitterUnderKeepsCount | xclim/sdba/processing.py:120-128 | Hence as many values lie under the threshold, and as many are present, after as before. |
| Jitter.JitterOverBounds | xclim/sdba/processing.py:155-163 | With noise from `[thresh, upper)`, nothing is over the threshold that was not before, and every present value is under `upper`. |
| Jitter.JitterUnderNothingBelow | xclim/sdba/processing.py:128 | A series with no present value under the threshold is returned unchanged. |

## Left out

- Unit conversion (`convert_units_to`, `to_agg_units`, `declare_units`): thresholds and bounds are taken already in the series' units.
- Calendar services are inputs: `get_calendar`, `convert_calendar`, `doy_to_days_since`, `to_cftime_datetime`, `xr.infer_freq`, `parse_offset`, `max_doy`. They appear as the sample fields, the `resolve` function of `select_time`, the `DaysSince` bound arrays with their inferred frequency, and the `Sampling` record.
- Resampling is an input: `resample` maps a frequency to its periods.
- Random draws are inputs: the noise of the jitter functions is given, one draw per value, and `eps` is a parameter.
- Dask chunking and rechunking, the history decorator and the `attrs.update` copy of the jitter functions are not modelled.
- Aggregation.Reducer: only `sum`, `min`, `max` and `mean`; `std` needs a square root.
- Standardization.Standardize: the standard deviation is an input, because computing it needs a square root. `requires std != Num(0.0)`: division by zero gives infinities, which the value type does not have.
- Selection.DefaultFreq: requires a day-of-year start in 1..366, the documented range of day-of-year bounds. Outside it the source takes the month of the date `start - 1` days after 2004-01-01 (day 0 gives 2003-12-31 and "AS-DEC", day 367 gives 2005-01-01 and "AS-JAN"), which the model does not compute.
- Selection.ParseMonthPrefix: only ASCII digits and whitespace are modelled. Python's `int` also accepts other Unicode decimal digits and whitespace, which fail here; an underscore between digits cannot occur in a valid two-character literal.
- Aggregation.GetDays: `index_of_date` is not part of this model. It is taken to return the positions of the samples with the given "%m-%d", raising ValueError when more than one is found (`max_idxs=1`). Full "%Y-%m-%d" date strings are not modelled.
- MovingWindow.ConstructMovingYearlyWindow: requires `step` to be at least 1, because with `step <= 0` the `while` loop at xclim/sdba/processing.py:450 never ends once the first window fits; requires `window >= 0`, since a negative window makes a negative slice stop, which is not modelled; a window of 0 years is the IndexError of an empty first slice. The multiple and the year length must be at least 1.
- MovingWindow.UnpackMovingYearlyWindow: requires the multiple and the year length to be at least 1 and the windows to be rectangular (`WellFormed`). The warning when the time axis is not a whole number of years is not modelled.
- Stacking.StackVariables: requires the dataset's variable names and attribute names to be distinct (`ValidDataset`). Stacking is along the variables' own values, so alignment of differing coordinates is not modelled.
- Stacking.UnstackVariables: requires every coordinate to run along the stacked dimension with distinct labels (`ValidArray`). `ds[name]` resolves data variables only.
- Floating point is modelled as real arithmetic. NaN is a separate value; infinities and rounding are not modelled.
- MovingWindow.UnpackPlan: the spacings in years and `(window - step) // 2` are computed exactly on integers. The spacings are compared in days, since dividing every spacing by the same year length keeps distinct spacings distinct, and `left` is the floor of `(samples - step * n) / (2 * n)`. Floating-point rounding of the window length in years is not modelled.

## Findings

| source | as written | input that shows it | evidently intended | confidence | as-written member | corrected member |
|---|---|---|---|---|---|---|
| xclim/indices/generic.py:641 | The sign of `temperature_sum` comes from testing whether the condition string contains "<", so the mnemonics "lt" and "le", which `compare` accepts, are not negated. | One sample 0.0, threshold 1.0: "<" sums to 1.0, "lt" to -1.0. | The sign follows the resolved comparison, so every spelling of "below" is negated. | medium, not executed | Counting.TemperatureSumMnemonicNotNegated | Counting.TemperatureSumByOp |
| xclim/sdba/processing.py:585 | `unstack_variables` reads the attribute lists and labels from `da.variables`, the coordinate literally named "variables", not from the stacked dimension it just found. | `stack_variables(ds, dim="vars")` then `unstack_variables`: AttributeError. | Read them from `da[dim]`, the coordinate of the stacked dimension. | high, not executed | Stacking.UnstackOtherDimensionName | Stacking.StackUnstackRoundTrip |
