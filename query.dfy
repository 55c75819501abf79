/** The status query of main.py (`get_latest_seizure_status`) as a function
    of the cell's contents. The prediction service it delegates to is the
    parameter `predict`. */
module Query {
  import opened Models
  import opened Features
  import opened Aggregation

  /** The text of the placeholder verdict. */
  const INITIALIZING_MESSAGE: string := "System initializing. Awaiting first sensor data window from RTDB."

  /** The verdict served while no window has been processed yet. */
  const Initializing: SeizurePrediction := SeizurePrediction(false, 0, INITIALIZING_MESSAGE)

  /** The query: the placeholder for an empty cell, otherwise exactly what
      the prediction service returns for the cell's contents. */
  function GetLatestSeizureStatus(cell: seq<ProcessedFeatures>, predict: seq<ProcessedFeatures> -> SeizurePrediction): (r: SeizurePrediction)
    ensures cell == [] ==> !r.seizureDetected && r.severityScore == 0 && r.recommendation == INITIALIZING_MESSAGE
    ensures cell != [] ==> r == predict(cell)
  {
    if cell == [] then Initializing else predict(cell)
  }

  /** While fewer than `w` readings have been accepted since start-up, the
      query serves the placeholder, whatever the prediction service does. */
  lemma WarmingQuery(sqrt: real -> real, w: nat, rs: seq<RawSensorReading>, predict: seq<ProcessedFeatures> -> SeizurePrediction)
    requires 0 < w && |rs| < w
    ensures GetLatestSeizureStatus(AcceptAll(sqrt, w, Empty, rs).processed, predict) == Initializing
  {
    CellFromEmpty(sqrt, w, rs);
  }

  /** From `w` accepted readings on, the query hands the prediction service
      the one record of the newest `w` readings. */
  lemma SteadyQuery(sqrt: real -> real, w: nat, rs: seq<RawSensorReading>, predict: seq<ProcessedFeatures> -> SeizurePrediction)
    requires 0 < w <= |rs|
    ensures GetLatestSeizureStatus(AcceptAll(sqrt, w, Empty, rs).processed, predict)
         == predict([CalculateFeatures(sqrt, rs[|rs| - w..]).value])
  {
    CellFromEmpty(sqrt, w, rs);
  }

  /** As written, the listener never fills the cell from the documented
      event shape: however many readings such an event carries, the query
      keeps serving the placeholder. */
  lemma SnapshotQueryAsWritten(sqrt: real -> real, keys: seq<string>, rs: seq<RawSensorReading>, predict: seq<ProcessedFeatures> -> SeizurePrediction)
    requires |keys| == |rs|
    ensures GetLatestSeizureStatus(Listen(sqrt, WINDOW_SIZE, Empty, SnapshotEvent(keys, rs)).processed, predict)
         == Initializing
  {
    SnapshotIgnored(sqrt, WINDOW_SIZE, Empty, keys, rs);
  }

  /** Four readings in the documented shape at start-up, one short of
      WINDOW_SIZE: with the intended iteration the query still serves the
      placeholder. */
  lemma FourReadingsStillInitializing(sqrt: real -> real, keys: seq<string>, rs: seq<RawSensorReading>, predict: seq<ProcessedFeatures> -> SeizurePrediction)
    requires |keys| == |rs| == 4
    ensures GetLatestSeizureStatus(ListenStream(sqrt, WINDOW_SIZE, Empty, SnapshotEvent(keys, rs)).processed, predict)
         == Initializing
  {
    SnapshotAccepted(sqrt, WINDOW_SIZE, Empty, keys, rs);
    WarmingQuery(sqrt, WINDOW_SIZE, rs, predict);
  }

  /** Five readings in the documented shape at start-up, with pulses 110,
      120, 130, 140, 115: with the intended iteration the query hands the
      prediction service one record whose window starts at the first
      reading, with pulse average 123 and pulse deviation the square root of
      116. */
  lemma SeizureWindowQuery(sqrt: real -> real, keys: seq<string>, rs: seq<RawSensorReading>, predict: seq<ProcessedFeatures> -> SeizurePrediction)
    requires |keys| == |rs| == 5
    requires Pulses(rs) == [110.0, 120.0, 130.0, 140.0, 115.0]
    ensures var f := CalculateFeatures(sqrt, rs).value;
      GetLatestSeizureStatus(ListenStream(sqrt, WINDOW_SIZE, Empty, SnapshotEvent(keys, rs)).processed, predict) == predict([f]) &&
      f.timeWindowStart == rs[0].timestampMs && f.pulseRateAvg == 123.0 && f.pulseRateStd == sqrt(116.0)
  {
    SnapshotAccepted(sqrt, WINDOW_SIZE, Empty, keys, rs);
    SteadyQuery(sqrt, WINDOW_SIZE, rs, predict);
    assert rs[|rs| - WINDOW_SIZE..] == rs;
    ExamplePulseStatistics(Pulses(rs));
  }
}
