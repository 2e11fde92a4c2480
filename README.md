# Solar generation by day: a Dafny model

`SolarPredictor.py` fetches half-hourly solar generation readings (timestamp
and value) and reshapes them into one record per calendar day. It then adds
four metrics to each record: the peak, the total, and the half-hour periods in
which generation starts and ends. This project models that core and proves
properties of it:

- **`toHH`** (half_hour.dfy, module `HalfHour`). Turns a time of day `"HH:MM..."`
  into a 1-based half-hour period, `Hour * 2 + floor(Mins / 30) + 1`. It reads
  `int(time[0:2])` and `int(time[3:5])` with Python's clamped slicing, and
  models `int()` on those short fields: ASCII white space, a sign, and digits.
- **The grouping pass** (grouping.dfy, module `Grouping`, and the class
  `Script.SolarGen` in solar_gen.dfy). The cursor `PrevDate` starts at the
  sentinel 1900-01-01 and `Gen` starts empty. For each reading, the pass splits
  the timestamp at `'T'`, converts the time, and then either appends to the
  cursor's record or moves the cursor and assigns a fresh record.
  - The dict is modelled as a map plus the insertion order of its keys.
    Python's `dict` keeps that order and `for date in Gen` follows it.
  - A date already in the dict keeps its position when its record is replaced.
  - `Grouping` states one iteration as the function `StepRow` and the whole
    loop as the fold `Feed`. `SolarGen.Group` and `SolarGen.Ingest` run the
    loop in place on the object's fields and are proved against these.
  - An iteration that raises ends the loop. This happens in three cases: the
    timestamp does not split into exactly two parts, `toHH` raises, or the
    first reading is dated 1900-01-01 (then `Gen[date]` raises `KeyError`).
- **The metrics pass** (metrics.dfy, module `Metrics`, and
  `SolarGen.ComputeMetrics` / `SolarGen.FillDay`).
  - For every key in order, the pass writes `PeakGen = max`, `TotalGen = sum`,
    `GenStart = HH[min(Index)]` and `GenEnd = HH[max(Index)]`, where `Index`
    lists the positions of the day's non-zero values.
  - Each field is written as soon as it is computed. A day whose values are
    all zero raises at `min([])` after `PeakGen` and `TotalGen` were written,
    and the pass stops there, leaving the earlier days filled in.
  - `Summarise` is one day as a function and `FillAll` is the loop.
    `ComputeMetrics` updates `Gen` in place, key by key, and is proved against
    `FillAll`.

Three behaviours of the code worth knowing:

- `toHH` validates nothing. The `try` only builds a `KeyError` and drops it.
  So `"12:3"` gives 25, `"99:99"` gives 202, and a string is rejected only
  where `int()` rejects a field.
- A date that recurs after a different date does not create a second,
  disconnected entry. `Gen[date] = {...}` replaces the earlier record, whose
  readings are lost, and the key keeps its first position.
- A failing metrics pass leaves its partial writes in `Gen`. Nothing is
  rolled back (`Metrics.FillAllFailsAtFirst` states what each day then holds).

## Model

| member | source | states |
|---|---|---|
| HalfHour.ParseField | SolarPredictor.py:51-52 | `int()` of a field of at most two characters: two digits or one digit give their decimal value; a digit after white space or `+` gives that digit, after `-` its negation, and a digit followed by white space gives the digit; a digit followed by a sign, a field with no digit, an empty field, or one with a character that is not a digit, white space or a sign makes it raise; any value lies in -9..99 |
| HalfHour.Slice | SolarPredictor.py:51-52 | `time[i:j]` with both bounds clamped to the string: its length and that each character is the source's character at `i + k` |
| HalfHour.ToHH | SolarPredictor.py:46-55 | on a time whose hour and minute fields are two digits the result is `Hour * 2 + Mins / 30 + 1`, and for hour 0..23 and minute 0..59 it lies in 1..48; a string of at most three characters always fails |
| HalfHour.ToHHReadsOnlyFields | SolarPredictor.py:51-52 | two strings that agree in characters 0, 1, 3 and 4 have the same result |
| HalfHour.ToHHRejectsBadCharacter | SolarPredictor.py:47-52 | a character at position 0, 1, 3 or 4 that `int()` cannot accept makes `toHH` fail; the `try` does not stop it |
| HalfHour.ToHHCoversTime | SolarPredictor.py:54 | the result is `p` exactly when the minute of the day lies in `[30 (p - 1), 30 p)`, so the period is the half hour containing the time |
| HalfHour.ToHHMonotone | SolarPredictor.py:54 | a later clock time never gets an earlier period |
| HalfHour.ToHHPeriodStart | SolarPredictor.py:51-54 | every period 1..48 is the result for the time at which it begins |
| HalfHour.ToHHExamples | SolarPredictor.py:46-55 | "00:00:00" gives 1, "00:30:00" gives 2, "23:30:00" gives 48 and the out-of-range "99:99" gives 202 |
| HalfHour.ToHHShortFieldExamples | SolarPredictor.py:51-54 | "12:3" gives 25 (the minute field is "3") and "7:30:00" fails on the hour field "7:" |
| HalfHour.ToHHSpacePaddedExample | SolarPredictor.py:51-54 | " 7:30:00" gives 16: `int(" 7")` is 7 |
| HalfHour.ToHHSignedExample | SolarPredictor.py:51-54 | "-1:-5" gives -2: the fields are -1 and -5, and the floor of -5 / 30 is -1 |
| Grouping.SplitTimestamp | SolarPredictor.py:97 | a successful split gives a date and a time that hold no 'T' and rejoin to the timestamp |
| Grouping.SplitTimestampSucceeds | SolarPredictor.py:97 | `date, time = dt.split('T')` succeeds exactly when the timestamp holds one 'T' |
| Grouping.SplitJoin | SolarPredictor.py:97 | splitting `date + "T" + time` gives back the date and the time |
| Grouping.ParseReading | SolarPredictor.py:96-100 | a parsed reading carries its own timestamp and value |
| Grouping.ParseReadingSpec | SolarPredictor.py:96-100 | a reading parses exactly when its timestamp splits and its time converts; the row holds the date before the 'T' and `toHH` of the time after it |
| Grouping.Append | SolarPredictor.py:102-104 | each of the three lists keeps its entries and grows by exactly one at its end, the reading's period, value or timestamp; the four metrics are unchanged; lists of equal length stay of equal length |
| Grouping.Start | SolarPredictor.py:107 | a new record's lists are exactly `[dt]`, `[HH]` and `[gen]` of the reading, and it has no metric yet |
| Grouping.StepRow | SolarPredictor.py:101-107 | one iteration raises exactly when the date equals the cursor but has no record (`KeyError`); otherwise the cursor becomes the date and the keys gain the date |
| Grouping.Step | SolarPredictor.py:96-107 | an iteration that goes through had a timestamp that splits, leaves the date before its 'T' as the cursor, and that date is the only key it may add |
| Grouping.Feed | SolarPredictor.py:95-107 | a loop that gets through never removes a key of `Gen` |
| Grouping.FeedRows | SolarPredictor.py:95-107 | the same loop over parsed rows never removes a key |
| Grouping.FirstReadingStartsRecord | SolarPredictor.py:92-107 | from the initial state, a first reading dated anything but 1900-01-01 starts the only record and key; a first reading dated 1900-01-01 raises |
| Grouping.StepSameDateAppends | SolarPredictor.py:101-104 | a reading dated like the cursor is appended at the end of that record's three lists; the other records, the keys, their order and the cursor do not change |
| Grouping.StepNewDateStarts | SolarPredictor.py:105-107 | a reading with another date moves the cursor and sets a one-reading record; a date that already had a record keeps its key position, a new date goes last, and no other record changes |
| Grouping.StepRowPreservesWellFormed | SolarPredictor.py:101-107 | every iteration keeps the invariant: each record's three lists have one equal, positive length; the key order lists each key once; and the cursor names a record unless nothing was read |
| Grouping.FeedPreservesWellFormed | SolarPredictor.py:95-107 | the invariant holds after any feed the loop gets through |
| Grouping.FeedAppend | SolarPredictor.py:95-107 | looping over `a + b` is looping over `a` and then, unless it raised, over `b` |
| Grouping.FeedStopsAt | SolarPredictor.py:95-107 | a reading that raises ends the loop with that error, whatever follows it |
| Grouping.FeedIsFeedRows | SolarPredictor.py:95-100 | a feed the loop gets through is one whose every reading parses, and it groups exactly as its parsed rows do |
| Grouping.FeedRowsKeys | SolarPredictor.py:95-107 | from the initial state, the keys of `Gen` are exactly the dates of the readings |
| Grouping.NonDecreasingHasNoRecurrence | SolarPredictor.py:95-107 | dates in ascending "YYYY-MM-DD" order never recur after a different date |
| Grouping.StepExtendsColumns | SolarPredictor.py:101-107 | an iteration that appends, or starts a record for an unseen date, adds the reading at the end of every list read back in key order |
| Grouping.AppendExtendsColumns | SolarPredictor.py:101-104 | appending to the cursor's record, which is the last key, adds the reading at the end of every list read back in key order |
| Grouping.StartExtendsColumns | SolarPredictor.py:105-107 | a record started for an unseen date goes last in key order, so its reading ends every list read back in key order |
| Grouping.FeedRowsConcatenates | SolarPredictor.py:95-107 | from the initial state, on rows whose dates do not recur, the records' `Generation`, `HH` and `dt` lists concatenated in key order are the rows' values, periods and timestamps, and the last key is the cursor |
| Grouping.FeedConcatenates | SolarPredictor.py:95-107 | the same for the feed itself: in key order the lists give back every value, timestamp and period of the feed, in arrival order |
| Grouping.StepCount | SolarPredictor.py:101-107 | an iteration adds at most one value to `Gen`, and one that replaces a record adds none |
| Grouping.RecurrenceLosesRows | SolarPredictor.py:105-107 | `Gen` never holds more values than were read, and fewer whenever a date recurs after a different date |
| Grouping.FeedKeepsEveryReading | SolarPredictor.py:95-107 | from the initial state, `Gen` holds every value read exactly when no date recurs after a different date |
| Metrics.Max | SolarPredictor.py:115 | `max` of a non-empty list is one of its elements and no element exceeds it |
| Metrics.Min | SolarPredictor.py:118 | `min` of a non-empty list is one of its elements and no element is below it |
| Metrics.Sum | SolarPredictor.py:116 | `sum` of non-negative values is non-negative |
| Metrics.TotalAtLeastPeak | SolarPredictor.py:115-116 | for non-negative values the sum is at least the maximum |
| Metrics.NonZeroIndices | SolarPredictor.py:117 | `Index` lists, in increasing order, exactly the positions of the non-zero values |
| Metrics.NonZeroBounds | SolarPredictor.py:117-119 | `min(Index)` is the first non-zero position, `max(Index)` the last, and the first comes no later than the last |
| Metrics.Summarise | SolarPredictor.py:115-119 | the metrics never change a day's `dt`, `HH` and `Generation` lists |
| Metrics.SummariseFailsOnlyWithoutGeneration | SolarPredictor.py:115-119 | on a record the grouping built, the day fails exactly when all its values are zero, then at `min([])` with `PeakGen` and `TotalGen` already written |
| Metrics.SummariseValues | SolarPredictor.py:115-119 | on success `PeakGen` is the largest value (and one of them), `TotalGen` the sum, `GenStart` the period of the first non-zero value and `GenEnd` that of the last |
| Metrics.StartNotAfterEnd | SolarPredictor.py:117-119 | with periods that never decrease within the day, `GenStart <= GenEnd` |
| Metrics.SummariseTotalAtLeastPeak | SolarPredictor.py:115-116 | for non-negative values `TotalGen >= PeakGen` |
| Metrics.SummariseExample | SolarPredictor.py:115-119 | periods [1, 2, 3] with values [0, 5, 0] give peak 5, total 5, start 2, end 2 |
| Metrics.ReductionExamples | SolarPredictor.py:115-118 | on [0, 5, 0] `max` and `sum` are 5 and `Index` is [1]; on [1] `min` and `max` are 1 |
| Metrics.Visit | SolarPredictor.py:114-119 | visiting a key of `Gen` (or skipping it after a failure) neither adds nor removes a key |
| Metrics.FillAll | SolarPredictor.py:114-119 | the whole pass keeps exactly the keys of `Gen` |
| Metrics.FillAllKeepsReadings | SolarPredictor.py:114-119 | the whole pass leaves every record's three lists as they were |
| Metrics.FillAllPreservesWellFormed | SolarPredictor.py:114-119 | the grouping invariant still holds after the metrics pass |
| Metrics.FillAllSucceeds | SolarPredictor.py:114-119 | when the pass succeeds, every key holds its own summarised record and none of its days failed; records of keys outside the order are untouched |
| Metrics.FillAllSucceedsIff | SolarPredictor.py:114-119 | on the grouping's records the pass succeeds exactly when every day has a non-zero value, and otherwise it fails at `min([])` |
| Metrics.FillAllFailsAtFirst | SolarPredictor.py:114-119 | when `order[k]` is the first day without a non-zero value, the pass fails there at `min([])`; the days before it hold their summaries, that day holds only `PeakGen` and `TotalGen`, and the days after it keep their records |
| Metrics.FillAllStops | SolarPredictor.py:114-119 | once a day raises, the keys after it are never visited |
| Metrics.FillAllUntouched | SolarPredictor.py:114-119 | a key the pass has not reached keeps its record |
| Script.SolarGen.constructor | SolarPredictor.py:92-93 | `PrevDate` is 1900-01-01 and `Gen` is empty, which satisfies the invariant |
| Script.SolarGen.Group | SolarPredictor.py:101-107 | one iteration in place: it raises exactly where `StepRow` does, leaving the state unchanged; otherwise the new fields are `StepRow` of the old ones and the invariant holds |
| Script.SolarGen.Ingest | SolarPredictor.py:95-107 | the loop in place: the invariant holds; either the fields are `Feed` of the old state over all readings, or the loop stopped at the first reading `k` that raises, with the state of the readings before it, and `Feed` over the whole feed raises the same error |
| Script.SolarGen.FillDay | SolarPredictor.py:115-119 | one key's metrics written in place, equal to the `Visit` of that key; the cursor, the key order and the invariant are kept |
| Script.SolarGen.ComputeMetrics | SolarPredictor.py:114-119 | the pass in place: `Gen` and the reported failure are `FillAll` of the old `Gen` in key order; the cursor, the key order and the invariant are kept |

## Left out

- `GetHistoricalGen` (SolarPredictor.py:30-44) builds a URL and performs an HTTP request. This network I/O is not modelled; the feed is a parameter of `Ingest`.
- `response.json()['data']` and the extraction of `item[1]` / `item[2]` are not modelled. A reading arrives as a timestamp string and an integer value.
- `arrow.get` parsing and comparison of dates are not modelled. A date is the string before the `'T'` and is compared by equality, so a date text that `arrow` would reject is not an error here.
- Plotting, pandas and the commented-out cells (the `#%%` blocks) are rendering and experimentation, and are not modelled.
- The unused list `Date = []` (line 91) is not modelled.
- Generation values are integers, not JSON floats, so `max` and `sum` are exact.
- HalfHour.ParseField: accepts only ASCII digits and ASCII white space. Python's `int()` also takes other Unicode digits and spaces, as well as an underscore between digits (which cannot occur in a valid two-character field).
- Grouping.Step: an iteration is modelled as split, then `toHH`, then grouping. The Python also evaluates `arrow.get(date)` and `item[2]` between the split and `toHH`. Both are left out, so only their errors are missing; the remaining errors are raised in the source's order.
