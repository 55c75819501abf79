/** The listener of firebase_service.py with its two module-level lists,
    RAW_READING_WINDOW and PROCESSED_DATA_WINDOW, held as fields of one
    aggregator object and updated in place. */
module Listener {
  import opened Models
  import opened Features
  import opened Aggregation

  class WindowAggregator {
    /** WINDOW_SIZE. */
    const windowSize: nat
    /** The square root used for the acceleration magnitudes and the pulse
        deviation. */
    const sqrt: real -> real
    /** RAW_READING_WINDOW: the recent readings, oldest first. */
    var rawReadingWindow: seq<RawSensorReading>
    /** PROCESSED_DATA_WINDOW: the latest feature record, or nothing yet. */
    var processedDataWindow: seq<ProcessedFeatures>

    /** The two lists as a value. */
    function State(): Windows
      reads this
    {
      Windows(rawReadingWindow, processedDataWindow)
    }

    ghost predicate Valid()
      reads this
    {
      Consistent(sqrt, windowSize, State())
    }

    /** Both lists start empty. */
    constructor (windowSize: nat, sqrt: real -> real)
      requires windowSize > 0
      ensures Valid() && State() == Empty
      ensures this.windowSize == windowSize && this.sqrt == sqrt
    {
      this.windowSize := windowSize;
      this.sqrt := sqrt;
      rawReadingWindow := [];
      processedDataWindow := [];
    }

    /** Append a reading to the buffer and drop the oldest reading when the
        buffer is over twice the window size; the cell is not touched. */
    method AppendReading(r: RawSensorReading)
      modifies this
      ensures rawReadingWindow == Appended(old(rawReadingWindow), r, windowSize)
      ensures processedDataWindow == old(processedDataWindow)
    {
      rawReadingWindow := rawReadingWindow + [r];
      if |rawReadingWindow| > windowSize * 2 {
        rawReadingWindow := rawReadingWindow[1..];
      }
    }

    /** Clear the cell and publish the features of the newest window. */
    method PublishLatest()
      requires 0 < windowSize <= |rawReadingWindow|
      modifies this
      ensures rawReadingWindow == old(rawReadingWindow)
      ensures processedDataWindow == [CalculateFeatures(sqrt, rawReadingWindow[|rawReadingWindow| - windowSize..]).value]
    {
      var windowToProcess := rawReadingWindow[|rawReadingWindow| - windowSize..];
      var processedFeatures := CalculateFeatures(sqrt, windowToProcess);
      processedDataWindow := [];
      processedDataWindow := processedDataWindow + [processedFeatures.value];
    }

    /** One converted reading: append it, and once the buffer holds a window,
        publish the features of the newest window. */
    method AddReading(r: RawSensorReading)
      requires Valid()
      modifies this
      ensures Valid()
      ensures State() == Step(sqrt, windowSize, old(State()), r)
    {
      ghost var s := State();
      AppendReading(r);
      StepConsistent(sqrt, windowSize, s, r);
      StepEquation(sqrt, windowSize, s, r, rawReadingWindow);
      ghost var next := Step(sqrt, windowSize, s, r);
      if |rawReadingWindow| >= windowSize {
        PublishLatest();
        assert State() == next;
      } else {
        assert State() == next;
      }
      assert Consistent(sqrt, windowSize, next);
    }

    /** `data_listener`: ignore an event that is not a `put` or has no data,
        raise on data that is not an object, and otherwise take every entry
        in turn, skipping those that are falsy, not objects or do not convert. */
    method DataListener(ev: Event) returns (outcome: Outcome)
      requires Valid()
      modifies this
      ensures Valid()
      ensures outcome == ListenerOutcome(ev)
      ensures State() == Listen(sqrt, windowSize, old(State()), ev)
    {
      if !Truthy(ev.data) || ev.eventType != "put" {
        return Ignored;
      }
      if !ev.data.JObject? {
        return Raised;
      }
      ghost var s0 := State();
      var entries := ev.data.members;
      var i := 0;
      while i < |entries|
        invariant 0 <= i <= |entries|
        invariant Valid()
        invariant State() == ListenEntries(sqrt, windowSize, s0, entries[..i])
      {
        var rawDict := entries[i].1;
        ListenEntriesStep(sqrt, windowSize, s0, entries, i);
        if Truthy(rawDict) && rawDict.JObject? {
          var newReading := ToReading(rawDict.members);
          if newReading.Some? {
            AddReading(newReading.value);
          }
        }
        i := i + 1;
      }
      assert entries[..i] == entries;
      return Processed;
    }
  }
}
