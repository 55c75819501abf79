# Seizure detection backend: sliding-window aggregation, in Dafny

The backend receives raw sensor readings from a wearable. Each reading has
a millisecond timestamp, three acceleration axes and a raw pulse. They
arrive through the change stream of a realtime database. A listener walks
the entries of each `put` event, turns every entry that is an object holding
a reading's five fields into a `RawSensorReading`, and appends it to a bounded
buffer (`RAW_READING_WINDOW`, at most `2 × WINDOW_SIZE` readings, with
`WINDOW_SIZE = 5`). Once the buffer holds a full window, the listener
computes a `ProcessedFeatures` record over the newest `WINDOW_SIZE`
readings:

- the window start;
- the mean acceleration magnitude;
- the mean pulse;
- the population standard deviation of the pulse.

It stores that record as the only element of a single-slot cell
(`PROCESSED_DATA_WINDOW`). The dashboard endpoint reads the cell. It serves
a fixed "initializing" verdict while the cell is empty, and otherwise
whatever the prediction service says about the cell's contents.

The listener walks the top level of the event's data. The comment beside it
documents that data as `{'data_stream': {push-id: reading, ...}}`. On that
shape the listener as written accepts no reading at all. The model keeps
the listener as written and adds the intended one beside it, which walks
the children of `data_stream` (see "## Findings").

The project has five modules:

- `Models` (models.dfy): the three record shapes, and JSON values as the
  change stream delivers them. It also holds the conversion of a pushed
  JSON object into a reading, with its round trip.
- `Features` (features.dfy): `calculate_features` as pure functions over
  sequences of reals. The square root is a parameter. Sums, means and the
  population variance are exact.
- `Aggregation` (aggregation.dfy): the two lists as a value `Windows`. It
  has the step for one accepted reading, the listener on one event, and the
  invariant of the two lists. It also holds the lemmas about the buffer and
  the cell, over any number of readings and events, and the documented
  event shape with the listener as written and as intended.
- `Listener` (listener.dfy): class `WindowAggregator` holds the buffer and
  the cell as fields. It updates them in place as `data_listener` does, with
  a loop over the event's entries. Each method is proved against the
  functions of `Aggregation`.
- `Query` (query.dfy): `get_latest_seizure_status` as a function of the
  cell's contents and of the prediction service, with end-to-end scenarios
  from start-up on the documented event shape.

External parts become parameters:

- The square root is the parameter `sqrt: real -> real`. Nothing is
  assumed about it.
- The prediction service is the parameter
  `predict: seq<ProcessedFeatures> -> SeizurePrediction`.

The query is a function, so it cannot change the buffer or the cell.

## Model

| member | source | states |
|---|---|---|
| Models.Truthy | firebase_service.py:62-67 | null, `false`, zero, the empty string, the empty list and the empty object are exactly the falsy values |
| Models.Lookup | firebase_service.py:70 | a key is found iff some member has it; the value found is that of the last member with the key |
| Models.IntField | models.py:8 | an `int` field accepts exactly a JSON integer, and yields its value |
| Models.RealField | models.py:9-11 | a `float` field accepts exactly a JSON integer or real, and yields its value |
| Models.ToReading | models.py:6-12 | the conversion succeeds iff all five fields are present with values of their types; each field of the reading is the value found under its key |
| Models.ReadingLookups | models.py:6-12 | each of the five keys of a pushed reading's payload finds that reading's own field value |
| Models.ReadingRoundTrip | models.py:6-12 | converting the payload pushed for a reading gives back that reading |
| Models.ExtraKeyIgnored | models.py:6-12 | a key that is not one of the five fields does not change the conversion |
| Features.Magnitudes | firebase_service.py:38-41 | one magnitude `sqrt(x²+y²+z²)` per reading, in batch order |
| Features.Pulses | firebase_service.py:38-42 | one pulse per reading, in batch order |
| Features.CalculateFeatures | firebase_service.py:28-51 | an error exactly for an empty batch; otherwise the window start is the first reading's timestamp, the acceleration feature times the count is the sum of the magnitudes, the pulse average times the count is the sum of the pulses, and the deviation is `sqrt` of the population variance of the pulses |
| Features.SumOfConstant | firebase_service.py:47-48 | a sum of `n` copies of `c` is `n·c` |
| Features.MeanOfConstant | firebase_service.py:47-48 | the mean of equal values is that value |
| Features.SumNonNegative | firebase_service.py:47-48 | a sum of non-negative values is non-negative |
| Features.SumBetween | firebase_service.py:47-48 | element bounds `lo`, `hi` bound the sum by `n·lo` and `n·hi` |
| Features.MeanBetween | firebase_service.py:47-48 | the mean lies between any lower and upper bound of the elements |
| Features.SumSquaredDeviationsNonNegative | firebase_service.py:49 | squared deviations sum to a non-negative value |
| Features.PopVarianceNonNegative | firebase_service.py:49 | the population variance is non-negative, so the deviation is a root of a non-negative value |
| Features.SumSquaredDeviationsOfConstant | firebase_service.py:49 | values all equal to `c` have no squared deviation from `c` |
| Features.PopVarianceOfConstant | firebase_service.py:49 | equal values have population variance zero |
| Features.ExpandSquaredDeviations | firebase_service.py:49 | the squared deviations from `m` are the sum of squares less `2m` times the sum plus `n·m²` |
| Features.SquaredDeviationsAtMean | firebase_service.py:49 | at the mean, the squared deviations are the sum of squares less `n·m²` |
| Features.VarianceAboutMean | firebase_service.py:49 | averaged over `n` (not `n−1`), the squared deviations about the mean are the mean square less the squared mean |
| Features.MeanCharacterized | firebase_service.py:48 | `m` is the mean iff `m·n` is the sum |
| Features.PopVarianceAsMeanOfSquares | firebase_service.py:48-49 | the population variance equals the mean of the squares less the square of the mean, an independent definition |
| Features.ConstantWindow | firebase_service.py:38-49 | identical readings give that reading's magnitude, its pulse as the average and a deviation of `sqrt(0)` |
| Features.PulseAverageInRange | firebase_service.py:48 | the pulse average lies between the smallest and the largest pulse |
| Features.ExamplePulseStatistics | firebase_service.py:48-49 | pulses 110, 120, 130, 140, 115 have average 123 and population variance 116 |
| Aggregation.Last | firebase_service.py:74-75 | the last `k` elements (all while shorter), as a suffix of the sequence |
| Aggregation.Appended | firebase_service.py:71-75 | the buffer after an append is the newest part of the old buffer plus the reading, one longer until it would pass `2w`, the same length after |
| Aggregation.TrailingWindow | firebase_service.py:80 | exactly `w` readings, the ones that end the buffer |
| Aggregation.WindowFeatures | firebase_service.py:78-83 | the features of the newest `w` readings start at the reading `w` places from the end |
| Aggregation.Step | firebase_service.py:71-88 | after one accepted reading it is the newest in the buffer; a buffer within `2w` stays within it; once the buffer holds `w` the cell holds one record starting `w` places from the end, and before that the cell is untouched |
| Aggregation.AcceptAll | firebase_service.py:71-88 | after a run of readings the last of them is the newest in the buffer, and a buffer within `2w` stays within it |
| Aggregation.EntryReading | firebase_service.py:67-70 | an entry yields a reading iff it is a truthy object that converts, and then it yields the converted reading |
| Aggregation.StepEntry | firebase_service.py:67-88 | one entry keeps a buffer within `2w` within it |
| Aggregation.ListenEntries | firebase_service.py:66-94 | walking the entries keeps a buffer within `2w` within it |
| Aggregation.ListenerOutcome | firebase_service.py:62-66 | the event is ignored iff its data is falsy or its type is not `put`; it raises iff it is a `put` with truthy data that is not an object |
| Aggregation.Listen | firebase_service.py:54-94 | an ignored or raising event leaves both lists unchanged, and a buffer within `2w` stays within it |
| Aggregation.EntryReadings | firebase_service.py:66-70 | one outcome per entry, in iteration order, each that entry's reading or nothing |
| Aggregation.AcceptedReadings | firebase_service.py:66-71 | an event's entries yield no more readings than there are entries |
| Aggregation.AcceptedReadingsMembers | firebase_service.py:66-71 | a reading is accepted iff some entry yields it |
| Aggregation.AcceptedReadingsAppend | firebase_service.py:66-71 | the readings of two runs of entries are those of the first followed by those of the second, so they come in iteration order |
| Aggregation.AppendedShape | firebase_service.py:71-75 | an append puts the reading at the tail; the buffer grows until `2w`, then drops its head; it never exceeds `2w` |
| Aggregation.StepConsistent | firebase_service.py:71-88 | one accepted reading keeps the invariant: buffer at most `2w`, cell empty before `w` readings and afterwards the features of the newest `w`; the cell holds at most one record |
| Aggregation.BufferFromEmpty | firebase_service.py:71-75 | from start-up the buffer is the newest `2w` accepted readings in arrival order, and from `2w` readings on (so after `3w`) exactly `2w` long |
| Aggregation.BufferWindow | firebase_service.py:71-80 | from start-up, once `w` readings were accepted, the newest `w` in the buffer are the newest `w` accepted |
| Aggregation.CellFromEmpty | firebase_service.py:78-88 | from start-up the cell is empty while fewer than `w` readings were accepted, and afterwards holds exactly the features of the newest `w` |
| Aggregation.PublishedWindowStart | firebase_service.py:78-88 | a published record is the only one, and its window starts at buffer position `len − w` |
| Aggregation.SlidingWindow | firebase_service.py:74-80 | once the buffer holds a window, the next reading slides the window by one: the oldest drops out, the new reading is last |
| Aggregation.Sliding | firebase_service.py:78-88 | after the next reading the cell holds the features of the slid window, which starts at the second reading of the previous window |
| Aggregation.CellStaysFilled | firebase_service.py:87-88 | once filled, the cell stays filled through any further readings |
| Aggregation.ListenEntriesAccepts | firebase_service.py:66-94 | walking an event's entries is accepting, in order, the readings they yield |
| Aggregation.ListenEntriesAppend | firebase_service.py:66 | entries are processed one after another |
| Aggregation.NothingYielded | firebase_service.py:67-94 | entries none of which yields a reading leave both lists unchanged |
| Aggregation.SkippedEntry | firebase_service.py:67-94 | a falsy, non-object or unconvertible entry leaves both lists unchanged, and the entries after it are still processed |
| Aggregation.ListenEffect | firebase_service.py:54-94 | an ignored or raising event leaves both lists unchanged; otherwise it accepts exactly the readings its entries yield |
| Aggregation.ListenConsistent | firebase_service.py:54-94 | an event keeps the invariant, and a filled cell stays filled |
| Aggregation.AcceptAllConsistent | firebase_service.py:71-88 | any sequence of readings keeps the invariant |
| Aggregation.PushedEntries | firebase_service.py:61 | the children of `data_stream` after the pushes: entry `i` is the object of reading `i` under push key `i` |
| Aggregation.PushedReadingsAccepted | firebase_service.py:66-71 | walked directly, the children of `data_stream` yield every pushed reading, in push order |
| Aggregation.StreamNodeDoesNotConvert | firebase_service.py:61-70 | the `data_stream` node itself, taken as one entry, does not convert into a reading |
| Aggregation.SnapshotIgnored | firebase_service.py:61-71 | as written, an event in the documented shape leaves both lists unchanged, whatever readings it carries |
| Aggregation.SinglePushIgnored | firebase_service.py:62-71 | as written, a `put` whose data is a single reading's object leaves both lists unchanged |
| Aggregation.StreamEntries | firebase_service.py:61 | the children of `data_stream` are found iff the data is an object whose `data_stream` member is an object, and they are that object's members |
| Aggregation.ListenStream | firebase_service.py:61-94 | the intended listener: an ignored event or one without a `data_stream` node changes nothing, and a buffer within `2w` stays within it |
| Aggregation.SnapshotAccepted | firebase_service.py:61-71 | the intended listener accepts every reading of the documented shape, in push order |
| Aggregation.ListenStreamConsistent | firebase_service.py:61-94 | the intended listener keeps the invariant |
| Listener.WindowAggregator.constructor | firebase_service.py:22-25 | both lists start empty, and the invariant holds |
| Listener.WindowAggregator.AppendReading | firebase_service.py:71-75 | the buffer becomes the appended-and-evicted buffer; the cell is unchanged |
| Listener.WindowAggregator.PublishLatest | firebase_service.py:78-88 | the cell is cleared and then holds exactly the features of the newest `w` readings; the buffer is unchanged |
| Listener.WindowAggregator.AddReading | firebase_service.py:71-88 | append, evict and publish in place; the new lists are `Step` of the old ones, and the invariant is kept |
| Listener.WindowAggregator.DataListener | firebase_service.py:54-94 | the outcome is that of the event, the new lists are `Listen` of the old ones (the listener as written), and the invariant is kept |
| Query.GetLatestSeizureStatus | main.py:38-60 | an empty cell gives no seizure, severity 0 and the initializing text; a non-empty cell gives exactly the prediction for its contents |
| Query.WarmingQuery | main.py:48-54 | while fewer than `w` readings were accepted since start-up, the query serves the placeholder |
| Query.SteadyQuery | main.py:56-60 | from `w` accepted readings on, the query serves the prediction for the one record of the newest `w` |
| Query.SnapshotQueryAsWritten | main.py:48-54 | with the listener as written, an event in the documented shape leaves the query on the placeholder, however many readings it carries |
| Query.FourReadingsStillInitializing | main.py:48-54 | four readings in the documented shape at start-up, with the intended listener: the placeholder |
| Query.SeizureWindowQuery | main.py:56-60 | five readings with pulses 110, 120, 130, 140, 115 in the documented shape, with the intended listener: the prediction is asked about one record starting at the first reading, with pulse average 123 and deviation `sqrt(116)` |

## Left out

- Firebase initialisation and the listener thread (firebase_service.py:98-116), and the start-up hook (main.py:23-35). These are network I/O and thread set-up. The model starts from empty lists and feeds events one at a time.
- The race between the listener thread and the request thread. The listener's clear-then-append (firebase_service.py:87-88) can interleave with the request handler's read (main.py:46), and the code does not synchronise them. The model runs steps one after another and claims no atomic publication.
- ai_service.py is not part of this model. It is a call to a hosted language model, and the prediction service is the parameter `predict`. Its severity thresholds are prompt prose, not code.
- simulator.py is not part of this model. It generates random data, pushes it over the network and sleeps.
- Floating point. Magnitudes, means and the deviation are exact reals. The square root is an unconstrained parameter, and numpy's summation order and rounding are not modelled.
- Features.CalculateFeatures: does not model the `OverflowError` that squaring a huge float raises. In the source, that exception is caught per entry only after the reading was appended to the buffer.
- Models.ToReading: does not model pydantic's lax coercion. Only a JSON integer fills an `int` field, and a JSON integer or real fills a `float` field. Numeric strings, booleans and integral floats that pydantic would also coerce are rejected.
- Models.Lookup: the change stream's ordering of an object's members is taken as given; duplicate keys resolve to the last one.
- Aggregation.ListenEntries: walks every member of the event object. A decoded Python dict cannot hold a key twice, but a `JObject` can, and then each of its members is processed. The model does not require distinct keys and claims nothing beyond that for such objects.
- Aggregation.ListenStream: the intended listener follows the comments at lines 61 and 65. The source does not say what should happen to data without a `data_stream` object; the model leaves both lists unchanged. A `put` whose data is a single reading's object (a change at a deeper path) is walked by neither listener.
- Listener.WindowAggregator.DataListener: the `AttributeError` that escapes for truthy data that is not an object is the outcome `Raised`, with both lists unchanged; what the listener thread does with that exception is not modelled.
- `print` logging, the FastAPI decorators and `response_model` serialisation.
- The window start of a published record is the timestamp of a reading chosen by arrival order. Nothing in the code sorts by timestamp or checks that timestamps increase, and the model claims no such ordering.

## Findings

| source | as written | input that shows it | evidently intended | confidence | as-written member | corrected member |
|---|---|---|---|---|---|---|
| firebase_service.py:61-66 | the loop walks the top level of `event.data`, whose one entry is the `data_stream` node; that node does not convert, so no reading is accepted | a `put` whose data is `{"data_stream": {push-id: reading, ...}}`, the shape documented at line 61, with any number of readings (`SnapshotIgnored`, `SnapshotQueryAsWritten`) | walk the children of `event.data["data_stream"]`, one reading per push key | medium; not executed | Aggregation.SnapshotIgnored | Aggregation.ListenStream |
