/**
 * Incremental sample ingestion (graph.js, `graphDataReceived`): the samples of
 * each statement result are appended to the buffer of the topic the series is
 * named after, and that topic's high-water mark becomes the time of its last
 * new sample. A series for a topic the chart does not know ends the batch.
 *
 * This module states one batch as a function of the store and the results,
 * and proves what it does to every buffer and mark.
 */
module Ingestion {

  import opened Wrappers
  import opened Influx

  /** A sample value (a JSON number). */
  type Value = real

  /** A stored sample `{x, y}`. */
  datatype Sample = Sample(x: Instant, y: Value)

  /** The per-topic buffers `graph.data` and the marks `graph.lastUpdate`, keyed by topic index. */
  datatype Store = Store(data: seq<seq<Sample>>, lastUpdate: map<int, Instant>)

  /** Whether a batch ran to its end or was cut short by an unknown topic. */
  datatype Progress = Progress(store: Store, stopped: bool)

  /** `Array.prototype.indexOf`: the first position of `name`, or -1. */
  function IndexOf(topics: seq<string>, name: string): (r: int)
    ensures r == -1 <==> name !in topics
    ensures r != -1 ==> 0 <= r < |topics| && topics[r] == name && name !in topics[..r]
    decreases |topics|
  {
    if topics == [] then -1
    else if topics[0] == name then 0
    else
      var k := IndexOf(topics[1..], name);
      assert k != -1 ==> topics[..k + 1] == [topics[0]] + topics[1..][..k];
      if k == -1 then -1 else k + 1
  }

  /** The rows of a series turned into samples, in order. */
  function ToSamples(rows: seq<Row<Value>>): seq<Sample>
  {
    seq(|rows|, i requires 0 <= i < |rows| => Sample(rows[i].time, rows[i].value))
  }

  /** A result that does not stop the batch: it has no series, or one for a known topic. */
  predicate Known(topics: seq<string>, r: StatementResult<Value>)
  {
    r.series.None? || r.series.value.name in topics
  }

  /** The position of the first result naming an unknown topic, or `|results|`. */
  function FirstUnknown(topics: seq<string>, results: seq<StatementResult<Value>>): (k: nat)
    ensures k <= |results|
    ensures forall i :: 0 <= i < k ==> Known(topics, results[i])
    ensures k < |results| ==> !Known(topics, results[k])
    decreases |results|
  {
    if results == [] || !Known(topics, results[0]) then 0
    else
      var k := FirstUnknown(topics, results[1..]);
      assert forall i :: 0 < i < k + 1 ==> results[i] == results[1..][i - 1];
      k + 1
  }

  /**
   * The results the code can ingest without throwing: every series it reaches
   * for a known topic carries at least one row (the mark is read from the
   * last of them).
   */
  predicate Ingestible(topics: seq<string>, results: seq<StatementResult<Value>>)
    decreases |results|
  {
    results == [] ||
    match results[0].series
    case None => Ingestible(topics, results[1..])
    case Some(s) => s.name !in topics || (|s.values| > 0 && Ingestible(topics, results[1..]))
  }

  /** Appends `samples` to buffer `idx` and moves its mark to the last of them. */
  function Append(st: Store, idx: int, samples: seq<Sample>): Store
    requires 0 <= idx < |st.data| && samples != []
  {
    Store(st.data[idx := st.data[idx] + samples],
          st.lastUpdate[idx := samples[|samples| - 1].x])
  }

  /** The store after one batch of results, and whether an unknown topic ended it. */
  function Ingest(topics: seq<string>, st: Store, results: seq<StatementResult<Value>>): (p: Progress)
    requires |st.data| == |topics| && Ingestible(topics, results)
    ensures |p.store.data| == |topics|
    decreases |results|
  {
    if results == [] then Progress(st, false)
    else match results[0].series
      case None => Ingest(topics, st, results[1..])
      case Some(s) =>
        var idx := IndexOf(topics, s.name);
        if idx == -1 then Progress(st, true)
        else Ingest(topics, Append(st, idx, ToSamples(s.values)), results[1..])
  }

  /**
   * The samples the results bring for topic `j`, in order: an independent
   * reference for what the batch appends to that topic's buffer.
   */
  function SamplesFor(topics: seq<string>, results: seq<StatementResult<Value>>, j: int): seq<Sample>
    decreases |results|
  {
    if results == [] then []
    else SamplesOf(topics, results[0], j) + SamplesFor(topics, results[1..], j)
  }

  /** The samples one result brings for topic `j`. */
  function SamplesOf(topics: seq<string>, r: StatementResult<Value>, j: int): seq<Sample>
  {
    match r.series
    case None => []
    case Some(s) => if IndexOf(topics, s.name) == j then ToSamples(s.values) else []
  }

  /** Every sample of every result, concatenated: what the first fill autoscales on. */
  function Merge(results: seq<StatementResult<Value>>): seq<Sample>
    requires forall k :: 0 <= k < |results| ==> results[k].series.Some?
    decreases |results|
  {
    if results == [] then []
    else ToSamples(results[0].series.value.values) + Merge(results[1..])
  }

  /** Each mark is the time of the last sample in its topic's buffer, and only non-empty buffers have one. */
  ghost predicate MarksTrackBuffers(st: Store)
  {
    && (forall j :: j in st.lastUpdate ==>
          0 <= j < |st.data| && st.data[j] != []
          && st.lastUpdate[j] == st.data[j][|st.data[j]| - 1].x)
    && (forall j :: 0 <= j < |st.data| && st.data[j] != [] ==> j in st.lastUpdate)
  }

  /** The batch stops exactly when some result names an unknown topic. */
  lemma {:induction false} IngestStops(topics: seq<string>, st: Store, results: seq<StatementResult<Value>>)
    requires |st.data| == |topics| && Ingestible(topics, results)
    ensures Ingest(topics, st, results).stopped <==> FirstUnknown(topics, results) < |results|
    decreases |results|
  {
    if results != [] {
      match results[0].series
      case None =>
        IngestStops(topics, st, results[1..]);
      case Some(s) =>
        var idx := IndexOf(topics, s.name);
        if idx != -1 {
          IngestStops(topics, Append(st, idx, ToSamples(s.values)), results[1..]);
        }
    }
  }

  /**
   * What a batch does to topic `j`: the samples of the results before the
   * first unknown topic that are named after `j` are appended to its buffer
   * in order, and its mark becomes the time of the last of them; a topic that
   * gets no samples keeps its buffer and its mark.
   */
  lemma IngestAppends(topics: seq<string>, st: Store, results: seq<StatementResult<Value>>, j: int)
    requires |st.data| == |topics| && Ingestible(topics, results)
    requires 0 <= j < |topics|
    ensures var p := Ingest(topics, st, results).store;
      var added := SamplesFor(topics, results[..FirstUnknown(topics, results)], j);
      && p.data[j] == st.data[j] + added
      && (added == [] ==> (j in p.lastUpdate <==> j in st.lastUpdate)
                          && (j in st.lastUpdate ==> p.lastUpdate[j] == st.lastUpdate[j]))
      && (added != [] ==> j in p.lastUpdate && p.lastUpdate[j] == added[|added| - 1].x)
  {
    IngestBuffer(topics, st, results, j);
    IngestMark(topics, st, results, j);
  }

  /** The buffer half of `IngestAppends`. */
  lemma {:induction false} IngestBuffer(topics: seq<string>, st: Store, results: seq<StatementResult<Value>>, j: int)
    requires |st.data| == |topics| && Ingestible(topics, results)
    requires 0 <= j < |topics|
    ensures Ingest(topics, st, results).store.data[j]
      == st.data[j] + SamplesFor(topics, results[..FirstUnknown(topics, results)], j)
    decreases |results|
  {
    var k := FirstUnknown(topics, results);
    if results == [] {
      assert results[..k] == [];
    } else if !Known(topics, results[0]) {
      assert k == 0 && results[..k] == [];
    } else {
      var rest := results[1..];
      SamplesBeforeUnknown(topics, results, j);
      var later := SamplesFor(topics, rest[..FirstUnknown(topics, rest)], j);
      match results[0].series
      case None =>
        IngestBuffer(topics, st, rest, j);
        assert SamplesOf(topics, results[0], j) + later == later;
      case Some(s) =>
        var idx := IndexOf(topics, s.name);
        var samples := ToSamples(s.values);
        var st' := Append(st, idx, samples);
        assert Ingest(topics, st, results) == Ingest(topics, st', rest);
        IngestBuffer(topics, st', rest, j);
        assert st'.data[j] == st.data[j] + SamplesOf(topics, results[0], j);
        ConcatAssociates(st.data[j], SamplesOf(topics, results[0], j), later);
    }
  }

  /** Concatenation of samples associates. */
  lemma ConcatAssociates(a: seq<Sample>, b: seq<Sample>, c: seq<Sample>)
    ensures a + b + c == a + (b + c)
  {
  }

  /** The mark half of `IngestAppends`. */
  lemma {:induction false} IngestMark(topics: seq<string>, st: Store, results: seq<StatementResult<Value>>, j: int)
    requires |st.data| == |topics| && Ingestible(topics, results)
    requires 0 <= j < |topics|
    ensures var p := Ingest(topics, st, results).store;
      var added := SamplesFor(topics, results[..FirstUnknown(topics, results)], j);
      && (added == [] ==> (j in p.lastUpdate <==> j in st.lastUpdate)
                          && (j in st.lastUpdate ==> p.lastUpdate[j] == st.lastUpdate[j]))
      && (added != [] ==> j in p.lastUpdate && p.lastUpdate[j] == added[|added| - 1].x)
    decreases |results|
  {
    var k := FirstUnknown(topics, results);
    if results == [] {
      assert results[..k] == [];
    } else if !Known(topics, results[0]) {
      assert k == 0 && results[..k] == [];
    } else {
      var rest := results[1..];
      SamplesBeforeUnknown(topics, results, j);
      var later := SamplesFor(topics, rest[..FirstUnknown(topics, rest)], j);
      var added := SamplesOf(topics, results[0], j) + later;
      match results[0].series
      case None =>
        IngestMark(topics, st, rest, j);
        assert added == later;
      case Some(s) =>
        var idx := IndexOf(topics, s.name);
        var samples := ToSamples(s.values);
        var st' := Append(st, idx, samples);
        assert Ingest(topics, st, results) == Ingest(topics, st', rest);
        IngestMark(topics, st', rest, j);
        if idx == j {
          assert added == samples + later && added != [];
          if later == [] {
            assert added[|added| - 1] == samples[|samples| - 1];
          } else {
            assert added[|added| - 1] == later[|later| - 1];
          }
        } else {
          assert added == later;
        }
    }
  }

  /** The samples for `j` before the first unknown topic: the first result's, then the rest's. */
  lemma SamplesBeforeUnknown(topics: seq<string>, results: seq<StatementResult<Value>>, j: int)
    requires results != [] && Known(topics, results[0])
    ensures SamplesFor(topics, results[..FirstUnknown(topics, results)], j)
      == SamplesOf(topics, results[0], j) + SamplesFor(topics, results[1..][..FirstUnknown(topics, results[1..])], j)
  {
    var k := FirstUnknown(topics, results);
    assert results[..k][0] == results[0];
    assert results[..k][1..] == results[1..][..FirstUnknown(topics, results[1..])];
  }

  /** A batch keeps every mark equal to the time of its buffer's last sample. */
  lemma {:induction false} IngestKeepsMarks(topics: seq<string>, st: Store, results: seq<StatementResult<Value>>)
    requires |st.data| == |topics| && Ingestible(topics, results)
    requires MarksTrackBuffers(st)
    ensures MarksTrackBuffers(Ingest(topics, st, results).store)
    decreases |results|
  {
    if results != [] {
      match results[0].series
      case None =>
        IngestKeepsMarks(topics, st, results[1..]);
      case Some(s) =>
        var idx := IndexOf(topics, s.name);
        if idx != -1 {
          var samples := ToSamples(s.values);
          var st' := Append(st, idx, samples);
          assert st'.data[idx][|st'.data[idx]| - 1] == samples[|samples| - 1];
          IngestKeepsMarks(topics, st', results[1..]);
        }
    }
  }

  /**
   * Autoscale is judged from the first topic's buffer alone: after a batch
   * it is non-empty exactly when it was already, or the batch brought
   * samples for the first topic before any unknown topic.
   */
  lemma FirstTopicFilled(topics: seq<string>, st: Store, results: seq<StatementResult<Value>>)
    requires |st.data| == |topics| && |topics| > 0 && Ingestible(topics, results)
    ensures Ingest(topics, st, results).store.data[0] != [] <==>
      st.data[0] != [] || SamplesFor(topics, results[..FirstUnknown(topics, results)], 0) != []
  {
    IngestAppends(topics, st, results, 0);
  }

  ghost predicate Sorted(samples: seq<Sample>)
  {
    forall i, k :: 0 <= i < k < |samples| ==> samples[i].x <= samples[k].x
  }

  /**
   * A buffer stays in time order when the samples appended to it are in
   * order and lie strictly after the topic's mark, which is what the
   * topic's `time > mark` clause asks the database for.
   */
  lemma AppendKeepsSorted(st: Store, idx: int, samples: seq<Sample>)
    requires 0 <= idx < |st.data| && samples != []
    requires MarksTrackBuffers(st) && Sorted(st.data[idx]) && Sorted(samples)
    requires idx in st.lastUpdate ==> st.lastUpdate[idx] < samples[0].x
    ensures Sorted(Append(st, idx, samples).data[idx])
  {
    var old_, all := st.data[idx], st.data[idx] + samples;
    forall i, k | 0 <= i < k < |all| ensures all[i].x <= all[k].x {
      if i < |old_| && k >= |old_| {
        assert old_[i].x <= old_[|old_| - 1].x;
        assert samples[0].x <= samples[k - |old_|].x;
      }
    }
  }

  /** Every buffer of the store is in time order. */
  ghost predicate AllSorted(st: Store)
  {
    forall j :: 0 <= j < |st.data| ==> Sorted(st.data[j])
  }

  /**
   * Every series the batch ingests is in time order and lies strictly after
   * its topic's mark as the store stands when that series is reached.
   */
  ghost predicate Fresh(topics: seq<string>, st: Store, results: seq<StatementResult<Value>>)
    requires |st.data| == |topics| && Ingestible(topics, results)
    decreases |results|
  {
    results == [] ||
    match results[0].series
    case None => Fresh(topics, st, results[1..])
    case Some(s) =>
      var idx := IndexOf(topics, s.name);
      idx == -1 ||
      var samples := ToSamples(s.values);
      && Sorted(samples)
      && (idx in st.lastUpdate ==> st.lastUpdate[idx] < samples[0].x)
      && Fresh(topics, Append(st, idx, samples), results[1..])
  }

  /**
   * A batch of fresh series keeps every buffer in time order, and with it the
   * marks tracking the buffers.
   */
  lemma {:induction false} IngestKeepsSorted(topics: seq<string>, st: Store, results: seq<StatementResult<Value>>)
    requires |st.data| == |topics| && Ingestible(topics, results)
    requires MarksTrackBuffers(st) && AllSorted(st) && Fresh(topics, st, results)
    ensures AllSorted(Ingest(topics, st, results).store)
    decreases |results|
  {
    if results != [] {
      match results[0].series
      case None =>
        IngestKeepsSorted(topics, st, results[1..]);
      case Some(s) =>
        var idx := IndexOf(topics, s.name);
        if idx != -1 {
          var samples := ToSamples(s.values);
          var st' := Append(st, idx, samples);
          AppendKeepsSorted(st, idx, samples);
          assert st'.data[idx][|st'.data[idx]| - 1] == samples[|samples| - 1];
          assert MarksTrackBuffers(st');
          assert AllSorted(st');
          IngestKeepsSorted(topics, st', results[1..]);
        }
    }
  }

  /**
   * A topic configured twice: on the first poll both copies have no mark and
   * ask for the same 24 h lookback, and `indexOf` sends both answers to the
   * first copy's buffer, one after the other.
   */
  lemma DuplicateTopicUnsorts()
    ensures var st := Store([[], []], map[]);
      var answer := StatementResult(Some(Series("t", [Row(1, 0.0), Row(5, 0.0)])));
      var buffer := Ingest(["t", "t"], st, [answer, answer]).store.data[0];
      && buffer == [Sample(1, 0.0), Sample(5, 0.0), Sample(1, 0.0), Sample(5, 0.0)]
      && !Sorted(buffer)
  {
    var st := Store([[], []], map[]);
    var answer := StatementResult(Some(Series("t", [Row(1, 0.0), Row(5, 0.0)])));
    var samples := [Sample(1, 0.0), Sample(5, 0.0)];
    assert ToSamples(answer.series.value.values) == samples;
    var once := Append(st, 0, samples);
    assert [answer, answer][1..] == [answer];
    assert Ingest(["t", "t"], st, [answer, answer]) == Ingest(["t", "t"], once, [answer]);
    assert Ingest(["t", "t"], once, [answer]) == Progress(Append(once, 0, samples), false);
    var buffer := Ingest(["t", "t"], st, [answer, answer]).store.data[0];
    assert buffer[1].x > buffer[2].x;
  }

  /**
   * Two polls in flight at once: both statements are built from mark 3, so
   * each reply is fresh with respect to the store the query was built from,
   * but the slower one arrives after the faster one has already moved the
   * buffer on, and its samples are appended a second time.
   */
  lemma OverlappingRepliesUnsort()
    ensures var st := Store([[Sample(3, 0.0)]], map[0 := 3]);
      var first := [StatementResult(Some(Series("t", [Row(4, 0.0), Row(5, 0.0)])))];
      var second := [StatementResult(Some(Series("t", [Row(4, 0.0), Row(5, 0.0), Row(6, 0.0)])))];
      var buffer := Ingest(["t"], Ingest(["t"], st, first).store, second).store.data[0];
      && MarksTrackBuffers(st) && AllSorted(st)
      && Fresh(["t"], st, first) && Fresh(["t"], st, second)
      && buffer == [Sample(3, 0.0), Sample(4, 0.0), Sample(5, 0.0), Sample(4, 0.0), Sample(5, 0.0), Sample(6, 0.0)]
      && !Sorted(buffer)
  {
    var st := Store([[Sample(3, 0.0)]], map[0 := 3]);
    var first := [StatementResult(Some(Series("t", [Row(4, 0.0), Row(5, 0.0)])))];
    var second := [StatementResult(Some(Series("t", [Row(4, 0.0), Row(5, 0.0), Row(6, 0.0)])))];
    var a, b := [Sample(4, 0.0), Sample(5, 0.0)], [Sample(4, 0.0), Sample(5, 0.0), Sample(6, 0.0)];
    assert ToSamples(first[0].series.value.values) == a;
    assert ToSamples(second[0].series.value.values) == b;
    assert first[1..] == [] && second[1..] == [];
    assert Sorted(a) && Sorted(b);
    assert Fresh(["t"], Append(st, 0, a), []) && Fresh(["t"], Append(st, 0, b), []);
    var mid := Ingest(["t"], st, first).store;
    assert mid == Append(st, 0, a);
    assert Ingest(["t"], mid, second).store == Append(mid, 0, b);
    var buffer := Ingest(["t"], mid, second).store.data[0];
    assert buffer[2].x > buffer[3].x;
  }
}
