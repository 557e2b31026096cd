/**
 * One chart element of graph.js: its configured topics, the per-topic sample
 * buffers `data`, the high-water marks `lastUpdate`, the reply callback
 * `graphDataReceived` and the query built by `updateGraph`.
 */
module Graphs {

  import opened Wrappers
  import opened Influx
  import opened Ingestion
  import opened Queries

  /**
   * What the code demands of a batch it handles without throwing: series it
   * ingests carry rows, and on a first fill that reaches the autoscale step
   * every result has a series (each one's `series[0]` is read again there).
   */
  predicate Acceptable(topics: seq<string>, firstFill: bool, results: seq<StatementResult<Value>>)
  {
    && Ingestible(topics, results)
    && (firstFill && FirstUnknown(topics, results) == |results| ==>
          forall k :: 0 <= k < |results| ==> results[k].series.Some?)
  }

  class Graph {

    /** The prefixed topic names, in configuration order. */
    const topics: seq<string>

    /** One sample buffer per topic, `graph.data`. */
    var data: seq<seq<Sample>>

    /** The time of the last sample received per topic index, `graph.lastUpdate`. */
    var lastUpdate: map<int, Instant>

    ghost predicate Valid()
      reads this
    {
      |topics| > 0 && |data| == |topics| && MarksTrackBuffers(Store(data, lastUpdate))
    }

    /** The state `setupGraph` leaves: no marks, and an empty buffer per topic. */
    constructor (topics: seq<string>)
      requires |topics| > 0
      ensures Valid()
      ensures this.topics == topics && lastUpdate == map[]
      ensures |data| == |topics| && forall j :: 0 <= j < |data| ==> data[j] == []
    {
      this.topics := topics;
      lastUpdate := map[];
      data := seq(|topics|, _ => []);
    }

    /**
     * Handles one reply. An error or a missing `results` field changes
     * nothing. Otherwise the results are ingested in order, results without
     * a series are skipped, and the first series for an unknown topic ends
     * the batch, the earlier results staying applied. Autoscale is requested
     * (the returned samples are what it is given) only when the first topic's
     * buffer was empty before the batch and no unknown topic ended it.
     */
    method DataReceived(reply: Reply<Value>) returns (autoscale: Option<seq<Sample>>)
      requires Valid()
      requires reply.Body? && reply.results.Some? ==>
        Acceptable(topics, data[0] == [], reply.results.value)
      modifies this
      ensures Valid()
      ensures reply.TransportError? || reply.results.None? ==>
        data == old(data) && lastUpdate == old(lastUpdate) && autoscale == None
      ensures reply.Body? && reply.results.Some? ==>
        var results := reply.results.value;
        var p := Ingest(topics, Store(old(data), old(lastUpdate)), results);
        && data == p.store.data && lastUpdate == p.store.lastUpdate
        && autoscale == if old(data)[0] == [] && FirstUnknown(topics, results) == |results|
                        then Some(Merge(results)) else None
      ensures reply.Body? && reply.results.Some? ==>
        old(AllSorted(Store(data, lastUpdate))) && Fresh(topics, Store(old(data), old(lastUpdate)), reply.results.value)
        ==> AllSorted(Store(data, lastUpdate))
    {
      if reply.TransportError? || reply.results.None? {
        return None;
      }
      var results := reply.results.value;
      ghost var st0 := Store(data, lastUpdate);
      IngestKeepsMarks(topics, st0, results);
      IngestStops(topics, st0, results);
      var firstTime := data[0] == [];

      var i := 0;
      while i < |results|
        invariant 0 <= i <= |results|
        invariant |data| == |topics|
        invariant Ingestible(topics, results[i..])
        invariant Ingest(topics, st0, results) == Ingest(topics, Store(data, lastUpdate), results[i..])
      {
        var result := results[i];
        assert results[i..][0] == result && results[i..][1..] == results[i + 1..];
        ghost var current := Store(data, lastUpdate);
        if result.series.None? {
          assert Ingest(topics, current, results[i..]) == Ingest(topics, current, results[i + 1..]);
          i := i + 1;
          continue;
        }
        var series := result.series.value;
        var topicIndex := IndexOf(topics, series.name);
        if topicIndex == -1 {
          assert Ingest(topics, current, results[i..]) == Progress(current, true);
          if AllSorted(st0) && Fresh(topics, st0, results) {
            IngestKeepsSorted(topics, st0, results);
          }
          return None;
        }
        var newData := ToSamples(series.values);
        assert Ingest(topics, current, results[i..])
          == Ingest(topics, Append(current, topicIndex, newData), results[i + 1..]);
        data := data[topicIndex := data[topicIndex] + newData];
        lastUpdate := lastUpdate[topicIndex := newData[|newData| - 1].x];
        assert Store(data, lastUpdate) == Append(current, topicIndex, newData);
        i := i + 1;
      }

      if AllSorted(st0) && Fresh(topics, st0, results) {
        IngestKeepsSorted(topics, st0, results);
      }
      if firstTime {
        autoscale := Some(Merge(results));
      } else {
        autoscale := None;
      }
    }

    /**
     * The query of `updateGraph`: one statement per topic, in topic order,
     * each asking for what is newer than the topic's mark.
     */
    method Query(format: Instant -> string) returns (query: string)
      ensures query == GraphQuery(topics, lastUpdate, format, |topics|)
    {
      query := "";
      var idx := 0;
      while idx < |topics|
        invariant 0 <= idx <= |topics|
        invariant query == GraphQuery(topics, lastUpdate, format, idx)
      {
        var next := AppendStatement(query, idx, format);
        assert next == GraphQuery(topics, lastUpdate, format, idx + 1) by {
          GraphQueryStep(topics, lastUpdate, format, idx);
        }
        query, idx := next, idx + 1;
      }
    }

    /**
     * The `forEach` callback of `updateGraph` for topic `idx`: appends the
     * topic's `SELECT`, its clause and the closing `;` to the text so far.
     */
    method AppendStatement(query: string, idx: nat, format: Instant -> string) returns (q: string)
      requires idx < |topics|
      ensures q == query + Statement(topics[idx], SinceClause(lastUpdate, idx, format))
    {
      var head := SelectValue + "\"" + EscapeFirstQuote(topics[idx]) + "\"";
      q := query + head;
      var clause: string;
      if idx in lastUpdate {
        clause := " WHERE time > '" + format(lastUpdate[idx]) + "'";
      } else {
        clause := LookbackClause;
      }
      q := q + clause;
      q := q + ";";
      AppendThree(query, head, clause, ";");
    }
  }

  /** Three appends in a row append their concatenation. */
  lemma AppendThree(s: string, a: string, b: string, c: string)
    ensures s + a + b + c == s + (a + b + c)
  {
  }
}
