/** The sliding-window aggregation of firebase_service.py as functions over
    the two shared lists: `raw` is RAW_READING_WINDOW, the buffer of recent
    readings, and `processed` is PROCESSED_DATA_WINDOW, the single-slot cell
    holding the latest features. WindowAggregator in listener.dfy performs
    these steps in place and is proved against them. */
module Aggregation {
  import opened Models
  import opened Features

  /** WINDOW_SIZE: the number of readings aggregated into one feature record. */
  const WINDOW_SIZE: nat := 5

  /** The contents of the two shared lists. */
  datatype Windows = Windows(raw: seq<RawSensorReading>, processed: seq<ProcessedFeatures>)

  /** Both lists at start-up. */
  const Empty: Windows := Windows([], [])

  /** One firebase change event: its type and its decoded data. */
  datatype Event = Event(eventType: string, data: Json)

  /** How the listener deals with an event: it returns early, it raises
      `AttributeError` on `.items()` of a truthy value that is not an object
      (outside the per-entry `try`), or it walks the object's entries. */
  datatype Outcome = Ignored | Raised | Processed

  /** The last `k` elements of `s`, or all of `s` when it is shorter. */
  function Last<T>(s: seq<T>, k: nat): (r: seq<T>)
    ensures |r| == if |s| < k then |s| else k
    ensures r == s[|s| - |r|..]
  {
    if |s| <= k then s else s[|s| - k..]
  }

  /** Append a reading at the tail, then drop the head if the buffer is over
      `2 * w` (firebase_service.py lines 71-75). */
  function Appended(raw: seq<RawSensorReading>, r: RawSensorReading, w: nat): (b: seq<RawSensorReading>)
    ensures |b| == if |raw| + 1 > 2 * w then |raw| else |raw| + 1
    ensures b == (raw + [r])[|raw| + 1 - |b|..]
  {
    var b := raw + [r];
    if |b| > w * 2 then b[1..] else b
  }

  /** The readings a feature record is computed from: the newest `w`. */
  function TrailingWindow(raw: seq<RawSensorReading>, w: nat): (t: seq<RawSensorReading>)
    requires |raw| >= w
    ensures |t| == w && raw == raw[..|raw| - w] + t
  {
    raw[|raw| - w..]
  }

  /** The features of the newest `w` readings. */
  function WindowFeatures(sqrt: real -> real, raw: seq<RawSensorReading>, w: nat): (f: ProcessedFeatures)
    requires 0 < w <= |raw|
    ensures f.timeWindowStart == raw[|raw| - w].timestampMs
  {
    CalculateFeatures(sqrt, TrailingWindow(raw, w)).value
  }

  /** One accepted reading (lines 71-88): append and evict, then, once the
      buffer holds `w` readings, clear the cell and store the features of
      the newest `w`. */
  function Step(sqrt: real -> real, w: nat, s: Windows, r: RawSensorReading): (st: Windows)
    requires w > 0
    ensures |st.raw| > 0 && st.raw[|st.raw| - 1] == r
    ensures |s.raw| <= 2 * w ==> |st.raw| <= 2 * w
    ensures |st.raw| >= w ==>
      |st.processed| == 1 && st.processed[0].timeWindowStart == st.raw[|st.raw| - w].timestampMs
    ensures |st.raw| < w ==> st.processed == s.processed
  {
    var raw := Appended(s.raw, r, w);
    if |raw| >= w then Windows(raw, [WindowFeatures(sqrt, raw, w)]) else Windows(raw, s.processed)
  }

  /** The readings accepted one after another. */
  function AcceptAll(sqrt: real -> real, w: nat, s: Windows, rs: seq<RawSensorReading>): (st: Windows)
    requires w > 0
    ensures rs != [] ==> |st.raw| > 0 && st.raw[|st.raw| - 1] == rs[|rs| - 1]
    ensures |s.raw| <= 2 * w ==> |st.raw| <= 2 * w
  {
    if rs == [] then s else Step(sqrt, w, AcceptAll(sqrt, w, s, rs[..|rs| - 1]), rs[|rs| - 1])
  }

  /** The reading an event entry yields: only a truthy object that converts
      (line 67-70); anything else is skipped. */
  function EntryReading(v: Json): (r: Option<RawSensorReading>)
    ensures r.Some? <==> Truthy(v) && v.JObject? && ToReading(v.members).Some?
    ensures r.Some? ==> ToReading(v.members) == r
  {
    if Truthy(v) && v.JObject? then ToReading(v.members) else None
  }

  /** One entry of the event: its reading is accepted if it has one, and the
      lists are left alone otherwise. */
  function StepEntry(sqrt: real -> real, w: nat, s: Windows, v: Json): (st: Windows)
    requires w > 0
    ensures |s.raw| <= 2 * w ==> |st.raw| <= 2 * w
  {
    match EntryReading(v)
    case Some(r) => Step(sqrt, w, s, r)
    case None => s
  }

  /** The entries of an event, in iteration order (the loop of line 66). */
  function ListenEntries(sqrt: real -> real, w: nat, s: Windows, es: seq<(string, Json)>): (st: Windows)
    requires w > 0
    ensures |s.raw| <= 2 * w ==> |st.raw| <= 2 * w
  {
    if es == [] then s
    else StepEntry(sqrt, w, ListenEntries(sqrt, w, s, es[..|es| - 1]), es[|es| - 1].1)
  }

  /** Which of the three ways the listener takes for an event (lines 62-66). */
  function ListenerOutcome(ev: Event): (o: Outcome)
    ensures o == Ignored <==> !Truthy(ev.data) || ev.eventType != "put"
    ensures o == Raised <==> Truthy(ev.data) && ev.eventType == "put" && !ev.data.JObject?
  {
    if !Truthy(ev.data) || ev.eventType != "put" then Ignored
    else if !ev.data.JObject? then Raised
    else Processed
  }

  /** `data_listener` on one event. */
  function Listen(sqrt: real -> real, w: nat, s: Windows, ev: Event): (st: Windows)
    requires w > 0
    ensures ListenerOutcome(ev) != Processed ==> st == s
    ensures |s.raw| <= 2 * w ==> |st.raw| <= 2 * w
  {
    if ListenerOutcome(ev) == Processed then ListenEntries(sqrt, w, s, ev.data.members) else s
  }

  /** What each entry yields, entry by entry. */
  function EntryReadings(es: seq<(string, Json)>): (os: seq<Option<RawSensorReading>>)
    ensures |os| == |es|
    ensures forall i :: 0 <= i < |es| ==> os[i] == EntryReading(es[i].1)
  {
    if es == [] then [] else EntryReadings(es[..|es| - 1]) + [EntryReading(es[|es| - 1].1)]
  }

  /** The values present in a sequence of options, in order. */
  function Somes<T>(os: seq<Option<T>>): (vs: seq<T>)
    ensures |vs| <= |os|
  {
    if os == [] then []
    else Somes(os[..|os| - 1]) + (if os[|os| - 1].Some? then [os[|os| - 1].value] else [])
  }

  /** The readings an event's entries yield, in order. */
  function AcceptedReadings(es: seq<(string, Json)>): (rs: seq<RawSensorReading>)
    ensures |rs| <= |es|
  {
    Somes(EntryReadings(es))
  }

  /** The invariant of the two lists: the buffer holds at most `2 * w`
      readings, and the cell holds the features of the newest `w` readings
      once there are `w` of them and is empty before. */
  ghost predicate Consistent(sqrt: real -> real, w: nat, s: Windows) {
    0 < w &&
    |s.raw| <= 2 * w &&
    s.processed == if |s.raw| >= w then [WindowFeatures(sqrt, s.raw, w)] else []
  }

  // ---------------------------------------------------------------------
  // The buffer

  /** The buffer after an append: the new reading is at the tail, the length
      grows by one until it reaches `2 * w`, and what was there keeps its
      order, less the head when it was full. */
  lemma AppendedShape(raw: seq<RawSensorReading>, r: RawSensorReading, w: nat)
    requires 0 < w && |raw| <= 2 * w
    ensures |raw| < 2 * w ==> Appended(raw, r, w) == raw + [r]
    ensures |raw| == 2 * w ==> Appended(raw, r, w) == raw[1..] + [r]
    ensures |Appended(raw, r, w)| <= 2 * w
  {
  }

  /** A step keeps the invariant. */
  lemma StepConsistent(sqrt: real -> real, w: nat, s: Windows, r: RawSensorReading)
    requires Consistent(sqrt, w, s)
    ensures Consistent(sqrt, w, Step(sqrt, w, s, r))
    ensures |Step(sqrt, w, s, r).processed| <= 1
  {
  }

  /** A step in terms of the buffer after the append: the cell is replaced
      by the features of the buffer's newest `w` readings once it holds `w`,
      and is left alone before. */
  lemma StepEquation(sqrt: real -> real, w: nat, s: Windows, r: RawSensorReading, buffer: seq<RawSensorReading>)
    requires w > 0 && buffer == Appended(s.raw, r, w)
    ensures |buffer| >= w ==>
      Step(sqrt, w, s, r) == Windows(buffer, [CalculateFeatures(sqrt, buffer[|buffer| - w..]).value])
    ensures |buffer| < w ==> Step(sqrt, w, s, r) == Windows(buffer, s.processed)
  {
  }

  /** From start-up, after the readings `rs`, the buffer is the newest
      `2 * w` of them (all of them while there are fewer), in arrival order.
      From `2 * w` readings on (after `3 * w`, say) it is exactly full. */
  lemma {:induction false} BufferFromEmpty(sqrt: real -> real, w: nat, rs: seq<RawSensorReading>)
    requires w > 0
    ensures AcceptAll(sqrt, w, Empty, rs).raw == Last(rs, 2 * w)
    ensures |rs| >= 2 * w ==> |AcceptAll(sqrt, w, Empty, rs).raw| == 2 * w
  {
    if rs != [] {
      var front, r := rs[..|rs| - 1], rs[|rs| - 1];
      assert rs == front + [r];
      BufferFromEmpty(sqrt, w, front);
      var b := AcceptAll(sqrt, w, Empty, front).raw;
      assert AcceptAll(sqrt, w, Empty, rs).raw == Appended(b, r, w);
      LastSnoc(front, r, 2 * w);
    }
  }

  /** Appending and evicting keeps the newest `k` elements. */
  lemma LastSnoc<T>(s: seq<T>, x: T, k: nat)
    requires k > 0
    ensures var b := Last(s, k) + [x]; (if |b| > k then b[1..] else b) == Last(s + [x], k)
  {
    var b := Last(s, k) + [x];
    if |s| >= k {
      assert b[1..] == (s + [x])[|s| + 1 - k..];
    }
  }

  /** From start-up, once `w` readings were accepted, the buffer's newest
      `w` readings are the newest `w` accepted. */
  lemma BufferWindow(sqrt: real -> real, w: nat, rs: seq<RawSensorReading>)
    requires 0 < w <= |rs|
    ensures |AcceptAll(sqrt, w, Empty, rs).raw| >= w
    ensures TrailingWindow(AcceptAll(sqrt, w, Empty, rs).raw, w) == rs[|rs| - w..]
  {
    BufferFromEmpty(sqrt, w, rs);
    LastWindow(rs, 2 * w, w);
  }

  /** The newest `w` of the newest `k` elements, for `w <= k`, are the
      newest `w`. */
  lemma LastWindow<T>(s: seq<T>, k: nat, w: nat)
    requires w <= k && w <= |s|
    ensures |Last(s, k)| >= w && Last(s, k)[|Last(s, k)| - w..] == s[|s| - w..]
  {
    var l := Last(s, k);
    assert l[|l| - w..] == s[|s| - |l|..][|l| - w..];
  }

  /** From start-up, the cell is empty while fewer than `w` readings were
      accepted and afterwards holds the features of the newest `w`. */
  lemma CellFromEmpty(sqrt: real -> real, w: nat, rs: seq<RawSensorReading>)
    requires w > 0
    ensures |rs| < w ==> AcceptAll(sqrt, w, Empty, rs).processed == []
    ensures |rs| >= w ==>
      AcceptAll(sqrt, w, Empty, rs).processed == [CalculateFeatures(sqrt, rs[|rs| - w..]).value]
  {
    var s := AcceptAll(sqrt, w, Empty, rs);
    AcceptAllConsistent(sqrt, w, Empty, rs);
    if |rs| < w {
      BufferFromEmpty(sqrt, w, rs);
      assert |s.raw| < w;
    } else {
      BufferWindow(sqrt, w, rs);
      assert s.processed == [WindowFeatures(sqrt, s.raw, w)];
    }
  }

  // ---------------------------------------------------------------------
  // The cell

  /** The published record starts at the reading `w` places from the end of
      the buffer, and the cell never holds more than one record. */
  lemma PublishedWindowStart(sqrt: real -> real, w: nat, s: Windows)
    requires Consistent(sqrt, w, s) && s.processed != []
    ensures |s.processed| == 1 && |s.raw| >= w
    ensures s.processed[0].timeWindowStart == s.raw[|s.raw| - w].timestampMs
  {
  }

  /** The sliding window: once the buffer holds `w` readings, the next
      reading drops the oldest of the window and adds itself at the end. */
  lemma SlidingWindow(w: nat, raw: seq<RawSensorReading>, r: RawSensorReading)
    requires 0 < w <= |raw| <= 2 * w
    ensures |Appended(raw, r, w)| >= w
    ensures TrailingWindow(Appended(raw, r, w), w) == TrailingWindow(raw, w)[1..] + [r]
  {
    var b := Appended(raw, r, w);
    AppendedShape(raw, r, w);
    if |raw| < 2 * w {
      assert b[|b| - w..] == raw[|raw| - w + 1..] + [r];
    } else {
      assert b[|b| - w..] == raw[|raw| - w + 1..] + [r];
    }
  }

  /** After the next reading, the cell holds the features of the slid
      window, which starts at the second reading of the previous one. */
  lemma Sliding(sqrt: real -> real, w: nat, s: Windows, r: RawSensorReading)
    requires Consistent(sqrt, w, s) && |s.raw| >= w
    ensures Step(sqrt, w, s, r).processed
         == [CalculateFeatures(sqrt, TrailingWindow(s.raw, w)[1..] + [r]).value]
    ensures Step(sqrt, w, s, r).processed[0].timeWindowStart
         == if w > 1 then s.raw[|s.raw| - w + 1].timestampMs else r.timestampMs
  {
    SlidingWindow(w, s.raw, r);
    var slid := TrailingWindow(s.raw, w)[1..] + [r];
    assert slid[0] == if w > 1 then s.raw[|s.raw| - w + 1] else r;
  }

  /** Once filled, the cell stays filled by any further readings. */
  lemma {:induction false} CellStaysFilled(sqrt: real -> real, w: nat, s: Windows, rs: seq<RawSensorReading>)
    requires Consistent(sqrt, w, s) && s.processed != []
    ensures AcceptAll(sqrt, w, s, rs).processed != []
    ensures Consistent(sqrt, w, AcceptAll(sqrt, w, s, rs))
  {
    if rs != [] {
      CellStaysFilled(sqrt, w, s, rs[..|rs| - 1]);
      StepConsistent(sqrt, w, AcceptAll(sqrt, w, s, rs[..|rs| - 1]), rs[|rs| - 1]);
    }
  }

  // ---------------------------------------------------------------------
  // Events

  /** Options with one more at the end: its value, if any, comes last. */
  lemma SomesSnoc<T>(os: seq<Option<T>>, o: Option<T>)
    ensures Somes(os + [o]) == Somes(os) + (if o.Some? then [o.value] else [])
  {
    assert (os + [o])[..|os|] == os;
  }

  /** The values of two runs of options are those of the first followed by
      those of the second. */
  lemma {:induction false} SomesAppend<T>(a: seq<Option<T>>, b: seq<Option<T>>)
    ensures Somes(a + b) == Somes(a) + Somes(b)
  {
    if b == [] {
      assert a + b == a;
    } else {
      var front, o := b[..|b| - 1], b[|b| - 1];
      assert b == front + [o];
      assert a + b == (a + front) + [o];
      SomesAppend(a, front);
      SomesSnoc(a + front, o);
      SomesSnoc(front, o);
    }
  }

  /** A value is among the present ones exactly when it is present. */
  lemma {:induction false} SomesMembers<T>(os: seq<Option<T>>)
    ensures forall v :: v in Somes(os) <==> Some(v) in os
  {
    if os != [] {
      var front, o := os[..|os| - 1], os[|os| - 1];
      assert os == front + [o];
      SomesMembers(front);
      SomesSnoc(front, o);
    }
  }

  /** The entries with one more entry at the end. */
  lemma EntryReadingsSnoc(es: seq<(string, Json)>, e: (string, Json))
    ensures EntryReadings(es + [e]) == EntryReadings(es) + [EntryReading(e.1)]
  {
  }

  /** The readings of entries with one more entry at the end. */
  lemma AcceptedReadingsSnoc(es: seq<(string, Json)>, e: (string, Json))
    ensures AcceptedReadings(es + [e])
         == AcceptedReadings(es) + (if EntryReading(e.1).Some? then [EntryReading(e.1).value] else [])
  {
    EntryReadingsSnoc(es, e);
    SomesSnoc(EntryReadings(es), EntryReading(e.1));
  }

  /** The readings of two batches of entries are those of the first
      followed by those of the second: entries yield their readings in
      iteration order. */
  lemma AcceptedReadingsAppend(a: seq<(string, Json)>, b: seq<(string, Json)>)
    ensures AcceptedReadings(a + b) == AcceptedReadings(a) + AcceptedReadings(b)
  {
    assert EntryReadings(a + b) == EntryReadings(a) + EntryReadings(b);
    SomesAppend(EntryReadings(a), EntryReadings(b));
  }

  /** A reading is among those of the entries exactly when some entry
      yields it. */
  lemma AcceptedReadingsMembers(es: seq<(string, Json)>)
    ensures forall r :: r in AcceptedReadings(es) <==> exists j :: 0 <= j < |es| && EntryReading(es[j].1) == Some(r)
  {
    var os := EntryReadings(es);
    SomesMembers(os);
    forall r
      ensures r in AcceptedReadings(es) <==> exists j :: 0 <= j < |es| && EntryReading(es[j].1) == Some(r)
    {
      if Some(r) in os {
        var j :| 0 <= j < |os| && os[j] == Some(r);
        assert EntryReading(es[j].1) == Some(r);
      }
      if j :| 0 <= j < |es| && EntryReading(es[j].1) == Some(r) {
        assert os[j] == Some(r);
      }
    }
  }

  /** Accepting one more reading at the end is one more step. */
  lemma AcceptAllSnoc(sqrt: real -> real, w: nat, s: Windows, rs: seq<RawSensorReading>, r: RawSensorReading)
    requires w > 0
    ensures AcceptAll(sqrt, w, s, rs + [r]) == Step(sqrt, w, AcceptAll(sqrt, w, s, rs), r)
  {
    assert (rs + [r])[..|rs + [r]| - 1] == rs;
  }

  /** Walking an event's entries is accepting the readings they yield. */
  lemma {:induction false} ListenEntriesAccepts(sqrt: real -> real, w: nat, s: Windows, es: seq<(string, Json)>)
    requires w > 0
    ensures ListenEntries(sqrt, w, s, es) == AcceptAll(sqrt, w, s, AcceptedReadings(es))
  {
    if es != [] {
      var front, last := es[..|es| - 1], es[|es| - 1];
      var before := AcceptAll(sqrt, w, s, AcceptedReadings(front));
      assert ListenEntries(sqrt, w, s, front) == before by {
        ListenEntriesAccepts(sqrt, w, s, front);
      }
      var e := EntryReading(last.1);
      assert AcceptedReadings(es) == AcceptedReadings(front) + (if e.Some? then [e.value] else []) by {
        assert es == front + [last];
        AcceptedReadingsSnoc(front, last);
      }
      if e.Some? {
        AcceptAllSnoc(sqrt, w, s, AcceptedReadings(front), e.value);
      } else {
        assert AcceptedReadings(es) == AcceptedReadings(front);
      }
    }
  }

  /** The entries up to and including entry `i` are those before it
      followed by entry `i`. */
  lemma ListenEntriesStep(sqrt: real -> real, w: nat, s: Windows, es: seq<(string, Json)>, i: nat)
    requires w > 0 && i < |es|
    ensures ListenEntries(sqrt, w, s, es[..i + 1]) == StepEntry(sqrt, w, ListenEntries(sqrt, w, s, es[..i]), es[i].1)
  {
    assert es[..i + 1][..i] == es[..i];
  }

  /** Entries are processed one after the other: two batches of entries
      have the effect of the first followed by the second. */
  lemma {:induction false} ListenEntriesAppend(sqrt: real -> real, w: nat, s: Windows, a: seq<(string, Json)>, b: seq<(string, Json)>)
    requires w > 0
    ensures ListenEntries(sqrt, w, s, a + b) == ListenEntries(sqrt, w, ListenEntries(sqrt, w, s, a), b)
  {
    if b == [] {
      assert a + b == a;
    } else {
      ListenEntriesAppend(sqrt, w, s, a, b[..|b| - 1]);
      assert (a + b)[..|a + b| - 1] == a + b[..|b| - 1];
    }
  }

  /** Entries none of which yields a reading leave both lists as they are. */
  lemma {:induction false} NothingYielded(sqrt: real -> real, w: nat, s: Windows, es: seq<(string, Json)>)
    requires w > 0
    requires forall i :: 0 <= i < |es| ==> EntryReading(es[i].1) == None
    ensures ListenEntries(sqrt, w, s, es) == s
  {
    if es != [] {
      var front := es[..|es| - 1];
      forall i | 0 <= i < |front|
        ensures EntryReading(front[i].1) == None
      {
        assert front[i] == es[i];
      }
      NothingYielded(sqrt, w, s, front);
    }
  }

  /** An entry that is falsy, not an object, or does not convert leaves both
      lists as they are, and the entries after it are still processed. */
  lemma SkippedEntry(sqrt: real -> real, w: nat, s: Windows, a: seq<(string, Json)>, e: (string, Json), b: seq<(string, Json)>)
    requires w > 0 && EntryReading(e.1) == None
    ensures StepEntry(sqrt, w, s, e.1) == s
    ensures ListenEntries(sqrt, w, s, a + [e] + b) == ListenEntries(sqrt, w, s, a + b)
  {
    ListenEntriesAppend(sqrt, w, s, a + [e], b);
    ListenEntriesAppend(sqrt, w, s, a, b);
    assert (a + [e])[..|a + [e]| - 1] == a;
  }

  /** An event that is ignored or raises leaves both lists as they are;
      otherwise it accepts exactly the readings its entries yield. */
  lemma ListenEffect(sqrt: real -> real, w: nat, s: Windows, ev: Event)
    requires w > 0
    ensures ListenerOutcome(ev) != Processed ==> Listen(sqrt, w, s, ev) == s
    ensures ListenerOutcome(ev) == Processed ==>
      Listen(sqrt, w, s, ev) == AcceptAll(sqrt, w, s, AcceptedReadings(ev.data.members))
  {
    if ListenerOutcome(ev) == Processed {
      ListenEntriesAccepts(sqrt, w, s, ev.data.members);
    }
  }

  /** Listening keeps the invariant. */
  lemma ListenConsistent(sqrt: real -> real, w: nat, s: Windows, ev: Event)
    requires Consistent(sqrt, w, s)
    ensures Consistent(sqrt, w, Listen(sqrt, w, s, ev))
    ensures s.processed != [] ==> Listen(sqrt, w, s, ev).processed != []
  {
    ListenEffect(sqrt, w, s, ev);
    if ListenerOutcome(ev) == Processed {
      AcceptAllConsistent(sqrt, w, s, AcceptedReadings(ev.data.members));
      if s.processed != [] {
        CellStaysFilled(sqrt, w, s, AcceptedReadings(ev.data.members));
      }
    }
  }

  /** Any sequence of readings keeps the invariant. */
  lemma {:induction false} AcceptAllConsistent(sqrt: real -> real, w: nat, s: Windows, rs: seq<RawSensorReading>)
    requires Consistent(sqrt, w, s)
    ensures Consistent(sqrt, w, AcceptAll(sqrt, w, s, rs))
  {
    if rs != [] {
      AcceptAllConsistent(sqrt, w, s, rs[..|rs| - 1]);
      StepConsistent(sqrt, w, AcceptAll(sqrt, w, s, rs[..|rs| - 1]), rs[|rs| - 1]);
    }
  }

  /** The children of the `data_stream` node after a device's pushes: one
      object per reading, under its push key. */
  function PushedEntries(keys: seq<string>, rs: seq<RawSensorReading>): (es: seq<(string, Json)>)
    requires |keys| == |rs|
    ensures |es| == |rs|
    ensures forall i :: 0 <= i < |es| ==> es[i] == (keys[i], JObject(FromReading(rs[i])))
  {
    if rs == [] then []
    else PushedEntries(keys[..|keys| - 1], rs[..|rs| - 1]) + [(keys[|keys| - 1], JObject(FromReading(rs[|rs| - 1])))]
  }

  /** The object pushed for a reading yields that reading. */
  lemma PushedReadingYields(r: RawSensorReading)
    ensures EntryReading(JObject(FromReading(r))) == Some(r)
  {
    ReadingRoundTrip(r);
    assert FromReading(r) != [];
  }

  /** Every pushed reading is accepted, in push order. */
  lemma {:induction false} PushedReadingsAccepted(keys: seq<string>, rs: seq<RawSensorReading>)
    requires |keys| == |rs|
    ensures AcceptedReadings(PushedEntries(keys, rs)) == rs
  {
    if rs != [] {
      var front, r := rs[..|rs| - 1], rs[|rs| - 1];
      var fes := PushedEntries(keys[..|keys| - 1], front);
      var e := (keys[|keys| - 1], JObject(FromReading(r)));
      assert PushedEntries(keys, rs) == fes + [e];
      PushedReadingsAccepted(keys[..|keys| - 1], front);
      PushedReadingYields(r);
      AcceptedReadingsSnoc(fes, e);
      assert rs == front + [r];
    }
  }

  // ---------------------------------------------------------------------
  // The event shape documented at line 61

  /** A `put` of the listened node's data in the shape the comment at line 61
      documents: the pushed readings sit under `data_stream`, each under its
      push key. */
  function SnapshotEvent(keys: seq<string>, rs: seq<RawSensorReading>): Event
    requires |keys| == |rs|
  {
    Event("put", JObject([("data_stream", JObject(PushedEntries(keys, rs)))]))
  }

  /** The children of the pushed readings never convert: each key maps to an
      object, not to a number. */
  lemma StreamNodeDoesNotConvert(keys: seq<string>, rs: seq<RawSensorReading>)
    requires |keys| == |rs|
    ensures EntryReading(JObject(PushedEntries(keys, rs))) == None
  {
    var es := PushedEntries(keys, rs);
    var t := Lookup(es, "timestamp_ms");
    if t.Some? {
      var k :| 0 <= k < |es| && es[k] == ("timestamp_ms", t.value);
      assert t.value.JObject?;
    }
  }

  /** As written, the listener walks the top level of the documented shape:
      its one entry is the `data_stream` node, which does not convert, so the
      event leaves both lists as they were, whatever readings it carries. */
  lemma SnapshotIgnored(sqrt: real -> real, w: nat, s: Windows, keys: seq<string>, rs: seq<RawSensorReading>)
    requires w > 0 && |keys| == |rs|
    ensures Listen(sqrt, w, s, SnapshotEvent(keys, rs)) == s
  {
    StreamNodeDoesNotConvert(keys, rs);
    NothingYielded(sqrt, w, s, SnapshotEvent(keys, rs).data.members);
  }

  /** A `put` whose data is one pushed reading is left alone as well: every
      entry is a number, not an object. */
  lemma SinglePushIgnored(sqrt: real -> real, w: nat, s: Windows, r: RawSensorReading)
    requires w > 0
    ensures Listen(sqrt, w, s, Event("put", JObject(FromReading(r)))) == s
  {
    var es := FromReading(r);
    assert forall i :: 0 <= i < |es| ==> !es[i].1.JObject?;
    assert forall i :: 0 <= i < |es| ==> EntryReading(es[i].1) == None;
    NothingYielded(sqrt, w, s, es);
  }

  /** The children of the `data_stream` node of the event's data, when the
      data is an object holding such a node. */
  function StreamEntries(data: Json): (es: Option<seq<(string, Json)>>)
    ensures es.Some? <==> data.JObject? && Lookup(data.members, "data_stream").Some? &&
                          Lookup(data.members, "data_stream").value.JObject?
    ensures es.Some? ==> Lookup(data.members, "data_stream") == Some(JObject(es.value))
  {
    if data.JObject? then
      match Lookup(data.members, "data_stream")
      case Some(JObject(children)) => Some(children)
      case _ => None
    else None
  }

  /** The listener as its comments intend it: a `put` with data walks the
      children of `data_stream`, one per push; an event without that node
      changes nothing. */
  function ListenStream(sqrt: real -> real, w: nat, s: Windows, ev: Event): (st: Windows)
    requires w > 0
    ensures ListenerOutcome(ev) == Ignored || StreamEntries(ev.data) == None ==> st == s
    ensures |s.raw| <= 2 * w ==> |st.raw| <= 2 * w
  {
    if ListenerOutcome(ev) != Ignored && StreamEntries(ev.data).Some? then
      ListenEntries(sqrt, w, s, StreamEntries(ev.data).value)
    else s
  }

  /** The documented shape is a `put` that is walked, and its `data_stream`
      node holds the pushed entries. */
  lemma SnapshotStream(keys: seq<string>, rs: seq<RawSensorReading>)
    requires |keys| == |rs|
    ensures ListenerOutcome(SnapshotEvent(keys, rs)) == Processed
    ensures StreamEntries(SnapshotEvent(keys, rs).data) == Some(PushedEntries(keys, rs))
  {
    var ev := SnapshotEvent(keys, rs);
    assert Lookup(ev.data.members, "data_stream") == Some(JObject(PushedEntries(keys, rs)));
  }

  /** With the intended iteration, every reading of the documented shape is
      accepted, in push order. */
  lemma SnapshotAccepted(sqrt: real -> real, w: nat, s: Windows, keys: seq<string>, rs: seq<RawSensorReading>)
    requires w > 0 && |keys| == |rs|
    ensures ListenStream(sqrt, w, s, SnapshotEvent(keys, rs)) == AcceptAll(sqrt, w, s, rs)
  {
    var es := PushedEntries(keys, rs);
    SnapshotStream(keys, rs);
    ListenEntriesAccepts(sqrt, w, s, es);
    PushedReadingsAccepted(keys, rs);
  }

  /** The intended listener keeps the invariant too. */
  lemma ListenStreamConsistent(sqrt: real -> real, w: nat, s: Windows, ev: Event)
    requires Consistent(sqrt, w, s)
    ensures Consistent(sqrt, w, ListenStream(sqrt, w, s, ev))
  {
    if ListenerOutcome(ev) != Ignored && StreamEntries(ev.data).Some? {
      var es := StreamEntries(ev.data).value;
      ListenEntriesAccepts(sqrt, w, s, es);
      AcceptAllConsistent(sqrt, w, s, AcceptedReadings(es));
    }
  }
}
