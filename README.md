# Weather monitor core in Dafny

A model of the three pieces of sequential logic in the weather monitoring system, with proofs of
what they promise.

- **Consecutive-breach alert detector** (`Alerts`, `alert_manager.dfy`). The class
  `AlertManager` keeps a per-city history of breach timestamps, one list for high-temperature
  breaches and one for low-temperature breaches. `CheckThresholds` processes a batch of readings
  in input order:
  - a strict breach appends the reading's timestamp to that kind's list;
  - a reading that does not breach empties that kind's list;
  - an alert fires when the list has reached the configured number of updates and no two
    neighbouring timestamps are more than ten minutes apart, and the list is then emptied.

  The function `Run` specifies a batch. `Step` specifies one reading. The methods are proved to
  produce exactly the history and the alerts those functions describe. The lemmas then prove what
  `Run` promises:
  - when an alert fires, and only then;
  - that only the reading's city changes;
  - that alerts come out in input order;
  - an invariant of the history: a list long enough to alert always contains a gap;
  - that a stale gap blocks alerts until a non-breaching reading clears the list;
  - that a sustained run alerts exactly once.
- **Normalisation and daily aggregation** (`DataProcessing`, `data_processor.dfy`).
  - `Process` renames and projects raw observations.
  - `CalculateDailySummary` has the source's two loops. `GroupByDay` is the first loop: it folds
    every record into a per-(city, day) accumulator, keeping the keys in order of first
    appearance. The second loop finishes each accumulator into a summary, and `DominantCondition`
    chooses the dominant weather condition.
  - The result is proved to hold one summary per distinct key, in order of first appearance. Each
    summary gives the mean, maximum and minimum temperature of exactly that key's items, and the
    condition that occurs most often, ties going to the one met first.
  - Further lemmas prove:
    - the bounds `min <= avg <= max`;
    - the group counts;
    - the summary dates;
    - insensitivity to the order of a group's items.
- **Display-record defaulting** (`Display`, `display.dfy`). `PrepareCityData` copies the latest
  reading of a city. It fixes its timestamp, then fills in the six display fields one by one in a
  loop. The method is proved equal to the map-level function `Prepared`, about which the lemmas
  prove:
  - the placeholders shown when there is no reading;
  - which field values are kept;
  - which timestamp is chosen;
  - when the conversion fails;
  - idempotence.

The detector and the processor take timestamps as integer seconds. The display record holds
timestamps and `dt` values as real seconds. Temperatures are exact reals. The local time that
`datetime.fromtimestamp` yields is epoch seconds plus a fixed UTC offset, which is a parameter.
Where the current time is needed, it is a parameter too.

Facts about the code that the model keeps:
- A breach after a gap of more than ten minutes does not start a new run. The gap stays in the
  list, and the list keeps growing, so no alert of that kind fires until a non-breaching reading
  clears it (`GapBlocksHighAlerts`, `GapBlocksLowAlerts`).
- The ten-minute tolerance is a fixed 600 seconds, `MaxGapSeconds`.
- Readings are processed in input order, not per city in timestamp order.
- Normalised records drop humidity and wind speed. Daily summaries have no humidity or wind
  averages.
- The fetch layer has no cache, retry or backoff.

## Model

| member | source | states |
|---|---|---|
| Alerts.AlertManager.constructor | src/alerts/alert_manager.py:4-8 | the detector takes the three thresholds from its configuration and starts with an empty history |
| Alerts.AlertManager.CheckConsecutive | src/alerts/alert_manager.py:52-59 | true exactly when there are at least `consecutive_updates` timestamps and no neighbouring pair is more than 600 seconds apart (a gap of exactly ten minutes still counts); false for a shorter list; the argument is a value and is not changed |
| Alerts.AlertManager.CheckThresholds | src/alerts/alert_manager.py:10-50 | the new history and the returned alerts are exactly those of `Run` over the readings in input order; the history invariant is preserved; an empty batch returns no alerts and leaves the history unchanged |
| Alerts.AlertManager.CheckReading | src/alerts/alert_manager.py:13-48 | one loop iteration: creates the city's entry if it is absent, runs the high block and then the low block, and leaves exactly the history and alerts of `Step` |
| Alerts.AlertManager.CheckKind | src/alerts/alert_manager.py:21-33 | one threshold block (high at lines 21-33, low at 36-48): a breach appends the timestamp and, once the list is a consecutive run, empties it and reports an alert; a non-breach empties the list; only that city's list of that kind changes |
| Alerts.Step | src/alerts/alert_manager.py:13-48 | one reading creates its city's entry, leaves every other city's entry unchanged, and yields at most two alerts; each alert carries the reading's city, temperature and timestamp and is a breach of its kind; a high alert precedes a low alert |
| Alerts.Run | src/alerts/alert_manager.py:10-50 | a batch yields at most two alerts per reading, and every alert is a strict breach of its kind |
| Alerts.Track | src/alerts/alert_manager.py:21-33 | the definition of one threshold block on one list (high at lines 21-33, low at 36-48): the new list and whether an alert fires; `StepAlertIff` and `StepPending` prove what it promises |
| Alerts.StepAlertIff | src/alerts/alert_manager.py:20-48 | an alert of a kind is emitted for a reading if and only if the reading breaches, the list with its timestamp appended has reached `consecutive_updates` entries and has no gap over ten minutes; it is then the only alert of that kind for the reading |
| Alerts.StepPending | src/alerts/alert_manager.py:20-48 | after a reading, a kind's list is empty after a non-breach or an alert, and otherwise is the old list of that kind plus the timestamp; the high and low lists evolve independently |
| Alerts.AtThresholdIsNoBreach | src/alerts/alert_manager.py:20-48 | a temperature exactly at a threshold is no breach: no alert of that kind, and that kind's list is emptied |
| Alerts.GapPersists | src/alerts/alert_manager.py:56-58 | a list that contains a gap over ten minutes still contains it after an append |
| Alerts.StepKeepsInvariant | src/alerts/alert_manager.py:17-48 | one reading preserves the history invariant: every non-empty list of at least `consecutive_updates` entries contains a gap over ten minutes |
| Alerts.RunKeepsInvariant | src/alerts/alert_manager.py:10-50 | a batch preserves the history invariant |
| Alerts.RunAppend | src/alerts/alert_manager.py:10-50 | processing two batches in turn equals processing their concatenation, and the alerts of the second follow those of the first, so alerts come out in input order |
| Alerts.RunEntries | src/alerts/alert_manager.py:12-18 | after a batch the history has an entry for every city it had and every city read, and for no other |
| Alerts.RunLeavesOtherCities | src/alerts/alert_manager.py:12-48 | readings for other cities leave a city's entry, or its absence, unchanged, and raise no alert for it |
| Alerts.GapBlocksHighAlerts | src/alerts/alert_manager.py:21-24 | once a gap over ten minutes is in a city's high list, further high breaches for that city keep the gap and raise no high alert |
| Alerts.GapBlocksLowAlerts | src/alerts/alert_manager.py:36-39 | the same for the low list and low breaches |
| Alerts.BreachesAccumulate | src/alerts/alert_manager.py:21-33 | starting from an empty high list, the first `k < consecutive_updates` gap-free high breaches of a city raise no alert and leave exactly their timestamps in the list |
| Alerts.HighBreachAppends | src/alerts/alert_manager.py:21-23 | a high breach that leaves the list short of `consecutive_updates` raises no alert and appends its timestamp |
| Alerts.HighRunFires | src/alerts/alert_manager.py:21-31 | a high breach that completes a gap-free list of `consecutive_updates` entries raises exactly one high alert and empties the high list |
| Alerts.SustainedBreachAlertsOnce | src/alerts/alert_manager.py:21-31 | `consecutive_updates` high breaches for one city, starting from an empty high list and at most ten minutes apart, raise exactly one alert, on the last reading, with its temperature and timestamp, and leave the high list empty (the scenario of test_system.py lines 77-92) |
| DataProcessing.Process | src/data_processing/data_processor.py:7-18 | one record per raw item, in the same order; each has the item's city, `temperature = temp`, `feels_like`, `weather_condition = main` and the local timestamp of `dt`; humidity and wind speed are not carried over |
| DataProcessing.LocalTime | src/data_processing/data_processor.py:15 | the definition of `datetime.fromtimestamp` on whole seconds: epoch seconds plus the fixed UTC offset; `Process` and `DayOf` rely on it |
| DataProcessing.DayOf | src/data_processing/data_processor.py:23-30 | the calendar day of a local timestamp is the day whose midnight is at or before it and less than a day before it |
| DataProcessing.Distinct | src/data_processing/data_processor.py:27-36 | the keys in order of first appearance: each element of the input occurs exactly once |
| DataProcessing.Group | src/data_processing/data_processor.py:22-27 | the items gathered under a key all have that key |
| DataProcessing.MaxTemp | src/data_processing/data_processor.py:41 | the maximum of a group is the temperature of one of its items and no item is warmer |
| DataProcessing.MinTemp | src/data_processing/data_processor.py:42 | the minimum of a group is the temperature of one of its items and no item is colder |
| DataProcessing.DominantCondition | src/data_processing/data_processor.py:50 | `max` over the insertion-ordered condition counts: a counted condition with the largest count, and the first such one in insertion order |
| DataProcessing.CalculateDailySummary | src/data_processing/data_processor.py:20-61 | one summary per distinct (city, day) key of the input, in order of first appearance (none for an empty input); each summary gives the city, the day's midnight, the mean, maximum and minimum temperature of exactly that key's items, and their dominant condition |
| DataProcessing.GroupByDay | src/data_processing/data_processor.py:21-45 | after the first loop the keys are listed in order of first appearance, there is one accumulator per key and no other, and each accumulator holds the sum, count, extrema and insertion-ordered condition counts of exactly that key's items |
| DataProcessing.SummariesExtend | src/data_processing/data_processor.py:47-59 | appending the summary of the next key extends a correct prefix of the result |
| DataProcessing.SummarisesEachAt | src/data_processing/data_processor.py:47-59 | the summary at each position of the result summarises the group of the key at that position |
| DataProcessing.Fresh | src/data_processing/data_processor.py:27-36 | the definition of a new key's totals: its city, its day's midnight, a zero sum and count, no conditions, and the first item's temperature as both extrema; `AbsorbFirst` proves the first item then gives exactly that item's totals |
| DataProcessing.Absorb | src/data_processing/data_processor.py:38-45 | the definition of one update of a key's totals; `AbsorbNext`, `AbsorbTemperatures`, `AbsorbConditions` and `AccumulatorTracks` prove it keeps them equal to the totals of the key's items |
| DataProcessing.Finish | src/data_processing/data_processor.py:49-59 | the definition of a reported summary from a key's totals and its dominant condition; `SummaryOfAccumulator` proves the result summarises the key's items |
| DataProcessing.AbsorbFirst | src/data_processing/data_processor.py:27-45 | the first item of a new key starts an accumulator with that item's temperature as sum, maximum and minimum, a count of one and its condition counted once |
| DataProcessing.AbsorbNext | src/data_processing/data_processor.py:38-45 | absorbing the next item of a key keeps its accumulator equal to the totals of the extended group |
| DataProcessing.AbsorbTemperatures | src/data_processing/data_processor.py:39-42 | the running sum, maximum and minimum stay those of the group |
| DataProcessing.AbsorbConditions | src/data_processing/data_processor.py:44-45 | the condition counters stay the counts of the group's conditions, their keys in order of first appearance |
| DataProcessing.ConditionsAppend | src/data_processing/data_processor.py:44-45 | the conditions of two concatenated groups are the concatenation of their conditions |
| DataProcessing.DistinctPrefix | src/data_processing/data_processor.py:27-36 | the keys first met in a prefix of the input are a prefix of those of the whole input |
| DataProcessing.FirstAppearanceOrder | src/data_processing/data_processor.py:27-36 | a key listed earlier occurs in the input before every occurrence of a key listed later |
| DataProcessing.DominantIsMostFrequent | src/data_processing/data_processor.py:44-50 | the dominant condition occurs in the group, no condition occurs more often, and it is met no later than any condition that occurs as often |
| DataProcessing.ScanKeepsTracking | src/data_processing/data_processor.py:22-45 | one iteration of the first loop keeps the keys in order of first appearance and every accumulator equal to the totals of its key's items |
| DataProcessing.ScanKeepsOrder | src/data_processing/data_processor.py:27-29 | the scan appends a key to the order exactly when it meets the key for the first time |
| DataProcessing.ScanKeepsAccumulators | src/data_processing/data_processor.py:38-45 | absorbing an item into its key's accumulator leaves every accumulator the fold of its group |
| DataProcessing.FirstOfGroup | src/data_processing/data_processor.py:27-36 | an item whose key is new starts its group |
| DataProcessing.NextOfGroup | src/data_processing/data_processor.py:38-45 | an item whose key has been met extends its group by one |
| DataProcessing.AccumulatorTracks | src/data_processing/data_processor.py:22-45 | the accumulator folded over a group of one key holds the group's sum, count, extrema and condition counts |
| DataProcessing.ScannedKey | src/data_processing/data_processor.py:48-50 | every listed key has an accumulator with a positive count and a non-empty, fully counted list of conditions, so the mean and the dominant condition are defined |
| DataProcessing.SummaryStep | src/data_processing/data_processor.py:48-59 | one iteration of the second loop appends the correct summary of the next key |
| DataProcessing.SummaryOfAccumulator | src/data_processing/data_processor.py:48-59 | the summary finished from a group's accumulator summarises the group |
| DataProcessing.SumBetween | src/data_processing/data_processor.py:39-40 | the sum of `n` temperatures within `[lo, hi]` lies within `[n * lo, n * hi]` |
| DataProcessing.MeanBetween | src/data_processing/data_processor.py:49 | the mean of temperatures within `[lo, hi]` lies within `[lo, hi]` |
| DataProcessing.AverageBetweenExtrema | src/data_processing/data_processor.py:39-49 | the mean of a group lies between its minimum and its maximum |
| DataProcessing.SummaryBounds | src/data_processing/data_processor.py:39-49 | every summary has `min <= avg <= max`, and its maximum and minimum are attained by items of its group |
| DataProcessing.SummaryDateIsMidnight | src/data_processing/data_processor.py:23-30 | every item of a summarised group has the summary's city and lies within the day that starts at the summary's date |
| DataProcessing.EveryKeyHasItems | src/data_processing/data_processor.py:27-49 | every key of the result has at least one item, so the mean never divides by zero |
| DataProcessing.GroupCount | src/data_processing/data_processor.py:27-40 | a group draws its items from the input, and its count equals the number of input items with its key |
| DataProcessing.GroupComplete | src/data_processing/data_processor.py:22-27 | every input item with a key is in that key's group |
| DataProcessing.SumTempsAppend | src/data_processing/data_processor.py:39 | the sum over two concatenated groups is the sum of their sums |
| DataProcessing.SumTempsPermutation | src/data_processing/data_processor.py:39-40 | reordering a group leaves its sum unchanged |
| DataProcessing.ConditionsPermutation | src/data_processing/data_processor.py:44-45 | reordering a group leaves its condition counts unchanged |
| DataProcessing.ExtremaPermutation | src/data_processing/data_processor.py:41-42 | reordering a group leaves its maximum and minimum unchanged |
| DataProcessing.DominantPermutation | src/data_processing/data_processor.py:50 | the dominant conditions of two reorderings of one group occur equally often |
| DataProcessing.PermutedGroupSummaries | src/data_processing/data_processor.py:39-50 | summaries of two reorderings of a group agree on the mean, maximum and minimum; their dominant conditions differ only among conditions tied for the largest count |
| Display.FromTimestamp | app.py:38 | the definition of `datetime.fromtimestamp` on any number: epoch seconds plus the fixed UTC offset, a point in time |
| Display.Stamp | app.py:35-39 | the definition of the timestamp choice; `PreparedTimestamp` and `ConversionFailsIff` prove which timestamp is chosen and when the conversion fails |
| Display.WithDefaults | app.py:41-52 | the definition of the default filling over whole maps; `PreparedKeepsReading` and `PreparedHasDisplayFields` prove which values it keeps and that every display field is present |
| Display.Prepared | app.py:20-54 | the definition of the whole display record; `MissingInputShowsPlaceholders`, `ConversionFailsIff`, `PreparedHasDisplayFields`, `PreparedKeepsReading`, `PreparedTimestamp` and `PreparedIsIdempotent` prove what it promises |
| Display.DisplayFieldsListed | app.py:42-49 | the set of display fields holds exactly the six keys that the default-filling loop visits |
| Display.PrepareCityData | app.py:20-54 | the copy with its timestamp fixed and the display fields filled in one by one is exactly the record that `Prepared` describes; the input map is a value and is not changed |
| Display.MissingInputShowsPlaceholders | app.py:22-31 | without a reading (none, or an empty one) the record holds exactly the six display fields with `Unknown`, `N/A` four times and `No Data`, and the current local time |
| Display.ConversionFailsIff | app.py:35-39 | the conversion fails if and only if there is a reading, its timestamp is not a point in time, and its `dt` is present but not a number |
| Display.PreparedHasDisplayFields | app.py:42-52 | a prepared record holds all six display fields and a timestamp that is a point in time |
| Display.PreparedKeepsReading | app.py:34-52 | every field of the reading other than the timestamp keeps its value, every absent display field takes its placeholder, and no other key is added |
| Display.PreparedTimestamp | app.py:35-39 | a timestamp that is already a point in time is kept; otherwise it is the local time of `dt`, or of the current time when `dt` is absent |
| Display.PreparedIsIdempotent | app.py:34-52 | preparing a prepared record again, at any time, gives the same record |

## Left out

- `AlertManager.send_alerts` only prints. It is not modelled.
- The weather API client, the database handler, the predictor, the visualiser, the Flask
  `dashboard` route, the polling loop and the logging and configuration loaders are not part of
  this model. They are I/O and foreign libraries.
- `round(x, 2)` on the summary fields is not modelled. Temperatures are exact reals, so the
  summaries carry the unrounded mean and extrema.
- Local time is epoch seconds plus a fixed UTC offset. Daylight-saving changes and the host's
  time-zone rules are not modelled.
- The detector and the processor take whole seconds, so Python timestamps with microseconds are
  not modelled there. `Display` takes real seconds.
- Integers and temperatures are unbounded. Python floats, `float('inf')` and overflow in
  `fromtimestamp` are not modelled. The range errors `fromtimestamp` raises for out-of-range
  epochs are not modelled either.
- The source's initial extrema of minus and plus infinity are replaced by the first item's
  temperature. The first item always replaces them at once, so the results are the same.
- A dictionary without a field the source reads raises `KeyError` in the source. The typed
  records here always have every field, so these errors are not modelled:
  - `process` on a raw item without one of its fields;
  - `check_thresholds` on a reading without `city`, `temperature` or `timestamp`;
  - `calculate_daily_summary` on a record without `city`, `timestamp`, `temperature` or
    `weather_condition`;
  - `AlertManager.__init__` on a threshold dictionary without one of its three keys.
- In `Display`, Python's `bool` counting as a number for `fromtimestamp` is not modelled.
- The `avg_humidity` and `avg_wind_speed` fields that test_system.py checks for are not produced
  by the code, so they are not in the model.
- `DataProcessor.calculate_daily_summary` keeps its first loop in the separate method
  `GroupByDay`. The grouping state is a returned `map` rather than a local dictionary mutated in
  place.
- DataProcessing.CalculateDailySummary: the per-position property is stated through the recursive
  predicate `SummarisesEach`. The pointwise form is `SummarisesEachAt`.
- Alerts.StepKeepsInvariant: the history invariant is stated for non-empty lists only. With
  `consecutive_updates <= 0` an empty list is long enough and has no gap.
- Alerts.SustainedBreachAlertsOnce: stated for high breaches only, and it requires the low
  threshold not to exceed the high one. Otherwise the same readings could also be low breaches.
  The low case is symmetric.
- Alerts.BreachesAccumulate: stated for high breaches only, under the same requirement.
- Alerts.HighBreachAppends: stated for high breaches only, under the same requirement.
- Alerts.HighRunFires: stated for high breaches only, under the same requirement.
