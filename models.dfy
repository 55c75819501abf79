/** Record shapes of the system (models.py) and the conversion of a pushed
    JSON payload into a raw reading (`RawSensorReading(**raw_dict)`). */
module Models {

  datatype Option<+T> = None | Some(value: T)

  /** One JSON value as delivered by the database change stream. An object
      keeps its members in iteration order. */
  datatype Json =
    | JNull
    | JBool(b: bool)
    | JInt(i: int)
    | JReal(r: real)
    | JStr(s: string)
    | JList(items: seq<Json>)
    | JObject(members: seq<(string, Json)>)

  /** Python truthiness of a decoded JSON value: null, `false`, zero, the
      empty string, the empty list and the empty object are falsy. */
  predicate Truthy(v: Json)
    ensures !Truthy(v) <==> v == JNull || v == JBool(false) || v == JInt(0) || v == JReal(0.0) ||
                            v == JStr("") || v == JList([]) || v == JObject([])
  {
    match v
    case JNull => false
    case JBool(b) => b
    case JInt(i) => i != 0
    case JReal(r) => r != 0.0
    case JStr(s) => s != ""
    case JList(items) => items != []
    case JObject(members) => members != []
  }

  /** A single raw sensor reading: millisecond timestamp, three acceleration
      axes and the raw pulse. */
  datatype RawSensorReading = RawSensorReading(
    timestampMs: int,
    accelX: real,
    accelY: real,
    accelZ: real,
    pulseRaw: int)

  /** The aggregated features of one window. */
  datatype ProcessedFeatures = ProcessedFeatures(
    timeWindowStart: int,
    accelRmsMean: real,
    pulseRateAvg: real,
    pulseRateStd: real)

  /** The verdict served to the dashboard. */
  datatype SeizurePrediction = SeizurePrediction(
    seizureDetected: bool,
    severityScore: int,
    recommendation: string)

  /** The value bound to `key` in an object; as in a Python dict built from
      JSON, the last member with that key wins. */
  function Lookup(members: seq<(string, Json)>, key: string): (r: Option<Json>)
    ensures r.Some? <==> exists k :: 0 <= k < |members| && members[k].0 == key
    ensures r.Some? ==> exists k :: 0 <= k < |members| && members[k] == (key, r.value) &&
                                   forall j :: k < j < |members| ==> members[j].0 != key
  {
    if members == [] then None
    else if members[|members| - 1].0 == key then
      assert members[|members| - 1] == (key, members[|members| - 1].1);
      Some(members[|members| - 1].1)
    else
      var front := members[..|members| - 1];
      var r := Lookup(front, key);
      if r.Some? then
        ghost var k :| 0 <= k < |front| && front[k] == (key, r.value) &&
                       forall j :: k < j < |front| ==> front[j].0 != key;
        assert members[k] == (key, r.value);
        assert forall j :: k < j < |members| ==> members[j].0 != key by {
          forall j | k < j < |members|
            ensures members[j].0 != key
          {
            if j < |front| {
              assert members[j] == front[j];
            }
          }
        }
        r
      else r
  }

  /** An `int` field accepts a JSON integer. */
  function IntField(v: Option<Json>): (r: Option<int>)
    ensures r.Some? <==> v.Some? && v.value.JInt?
    ensures r.Some? ==> v.value == JInt(r.value)
  {
    if v.Some? && v.value.JInt? then Some(v.value.i) else None
  }

  /** A `float` field accepts a JSON integer or a JSON number with a fraction. */
  function RealField(v: Option<Json>): (r: Option<real>)
    ensures r.Some? <==> v.Some? && (v.value.JInt? || v.value.JReal?)
    ensures r.Some? ==> v.value == JReal(r.value) || (v.value.JInt? && r.value == v.value.i as real)
  {
    if v.Some? && v.value.JInt? then Some(v.value.i as real)
    else if v.Some? && v.value.JReal? then Some(v.value.r)
    else None
  }

  /** The five keys a reading is built from. */
  predicate IsReadingKey(key: string) {
    key == "timestamp_ms" || key == "accel_x" || key == "accel_y" || key == "accel_z" || key == "pulse_raw"
  }

  /** `RawSensorReading(**raw_dict)`: succeeds exactly when every one of the
      five fields is present with a value of its type; other keys are ignored. */
  function ToReading(members: seq<(string, Json)>): (r: Option<RawSensorReading>)
    ensures r.Some? <==>
      IntField(Lookup(members, "timestamp_ms")).Some? &&
      RealField(Lookup(members, "accel_x")).Some? &&
      RealField(Lookup(members, "accel_y")).Some? &&
      RealField(Lookup(members, "accel_z")).Some? &&
      IntField(Lookup(members, "pulse_raw")).Some?
    ensures r.Some? ==>
      Lookup(members, "timestamp_ms") == Some(JInt(r.value.timestampMs)) &&
      RealField(Lookup(members, "accel_x")) == Some(r.value.accelX) &&
      RealField(Lookup(members, "accel_y")) == Some(r.value.accelY) &&
      RealField(Lookup(members, "accel_z")) == Some(r.value.accelZ) &&
      Lookup(members, "pulse_raw") == Some(JInt(r.value.pulseRaw))
  {
    var t := IntField(Lookup(members, "timestamp_ms"));
    var x := RealField(Lookup(members, "accel_x"));
    var y := RealField(Lookup(members, "accel_y"));
    var z := RealField(Lookup(members, "accel_z"));
    var p := IntField(Lookup(members, "pulse_raw"));
    if t.Some? && x.Some? && y.Some? && z.Some? && p.Some? then
      Some(RawSensorReading(t.value, x.value, y.value, z.value, p.value))
    else None
  }

  /** The payload a device pushes for one reading. */
  function FromReading(r: RawSensorReading): seq<(string, Json)> {
    [("timestamp_ms", JInt(r.timestampMs)),
     ("accel_x", JReal(r.accelX)),
     ("accel_y", JReal(r.accelY)),
     ("accel_z", JReal(r.accelZ)),
     ("pulse_raw", JInt(r.pulseRaw))]
  }

  /** A member added at the end wins for its own key and leaves the other
      keys alone. */
  lemma LookupSnoc(members: seq<(string, Json)>, k: string, v: Json, key: string)
    ensures Lookup(members + [(k, v)], key) == if k == key then Some(v) else Lookup(members, key)
  {
    assert (members + [(k, v)])[..|members|] == members;
  }

  /** Each of the five keys of a pushed reading finds its own value. */
  lemma {:induction false} ReadingLookups(r: RawSensorReading)
    ensures Lookup(FromReading(r), "timestamp_ms") == Some(JInt(r.timestampMs))
    ensures Lookup(FromReading(r), "accel_x") == Some(JReal(r.accelX))
    ensures Lookup(FromReading(r), "accel_y") == Some(JReal(r.accelY))
    ensures Lookup(FromReading(r), "accel_z") == Some(JReal(r.accelZ))
    ensures Lookup(FromReading(r), "pulse_raw") == Some(JInt(r.pulseRaw))
  {
    var m1 := [("timestamp_ms", JInt(r.timestampMs))];
    var m2 := m1 + [("accel_x", JReal(r.accelX))];
    var m3 := m2 + [("accel_y", JReal(r.accelY))];
    var m4 := m3 + [("accel_z", JReal(r.accelZ))];
    assert FromReading(r) == m4 + [("pulse_raw", JInt(r.pulseRaw))];
    LookupSnoc([], "timestamp_ms", JInt(r.timestampMs), "timestamp_ms");
    assert [] + m1 == m1;
    LookupSnoc(m1, "accel_x", JReal(r.accelX), "timestamp_ms");
    LookupSnoc(m2, "accel_y", JReal(r.accelY), "timestamp_ms");
    LookupSnoc(m3, "accel_z", JReal(r.accelZ), "timestamp_ms");
    LookupSnoc(m4, "pulse_raw", JInt(r.pulseRaw), "timestamp_ms");
    LookupSnoc(m1, "accel_x", JReal(r.accelX), "accel_x");
    LookupSnoc(m2, "accel_y", JReal(r.accelY), "accel_x");
    LookupSnoc(m3, "accel_z", JReal(r.accelZ), "accel_x");
    LookupSnoc(m4, "pulse_raw", JInt(r.pulseRaw), "accel_x");
    LookupSnoc(m2, "accel_y", JReal(r.accelY), "accel_y");
    LookupSnoc(m3, "accel_z", JReal(r.accelZ), "accel_y");
    LookupSnoc(m4, "pulse_raw", JInt(r.pulseRaw), "accel_y");
    LookupSnoc(m3, "accel_z", JReal(r.accelZ), "accel_z");
    LookupSnoc(m4, "pulse_raw", JInt(r.pulseRaw), "accel_z");
    LookupSnoc(m4, "pulse_raw", JInt(r.pulseRaw), "pulse_raw");
  }

  /** Converting a pushed reading gives back that reading. */
  lemma ReadingRoundTrip(r: RawSensorReading)
    ensures ToReading(FromReading(r)) == Some(r)
  {
    ReadingLookups(r);
  }

  /** A member whose key is not one of the five reading keys does not change
      the conversion. */
  lemma ExtraKeyIgnored(members: seq<(string, Json)>, key: string, v: Json)
    requires !IsReadingKey(key)
    ensures ToReading(members + [(key, v)]) == ToReading(members)
  {
    var m := members + [(key, v)];
    assert m[..|m| - 1] == members;
  }
}
