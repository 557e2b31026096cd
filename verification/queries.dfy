/**
 * The InfluxQL text the two polling loops send (graph.js, `updateGraph` and
 * `updateSpaceState`). Both ask only for what is newer than what the chart
 * already holds, or for the last 24 hours when it holds nothing yet. The
 * ISO-8601 formatter of instants is a parameter `format`.
 */
module Queries {

  import opened Wrappers
  import opened Influx
  import opened Spans
  import opened Ingestion

  /** The start of every statement of the chart query, before the quoted topic name. */
  const SelectValue: string := "SELECT value FROM "

  /** The WHERE clause of a topic without a high-water mark. */
  const LookbackClause: string := " WHERE time > now() - 24h"

  /** The state-feed query when the block list is empty. */
  const StateLookbackQuery: string := "SELECT * FROM \"revspace/state\" WHERE time > now() - 24h;"

  /**
   * `String.prototype.replace` with a string pattern: only the FIRST double
   * quote of a topic name is escaped with a backslash.
   */
  function EscapeFirstQuote(s: string): (r: string)
    ensures '"' !in s ==> r == s
    ensures |r| == if '"' in s then |s| + 1 else |s|
    decreases |s|
  {
    if s == [] then []
    else if s[0] == '"' then "\\\"" + s[1..]
    else [s[0]] + EscapeFirstQuote(s[1..])
  }

  /** The first quote, at `i`, becomes `\"`; the text around it is kept as it is. */
  lemma {:induction false} EscapeReplacesFirstQuote(s: string, i: nat)
    requires i < |s| && s[i] == '"' && '"' !in s[..i]
    ensures EscapeFirstQuote(s) == s[..i] + "\\\"" + s[i + 1..]
    decreases i
  {
    if i > 0 {
      assert s[0] == s[..i][0];
      assert s[1..][..i - 1] == s[1..i];
      EscapeReplacesFirstQuote(s[1..], i - 1);
      assert s[..i] == [s[0]] + s[1..][..i - 1];
      assert s[i + 1..] == s[1..][i..];
    }
  }

  /** The WHERE clause for topic `idx`: strictly after its mark, or the 24 h lookback. */
  function SinceClause(lastUpdate: map<int, Instant>, idx: int, format: Instant -> string): string
  {
    if idx in lastUpdate then " WHERE time > '" + format(lastUpdate[idx]) + "'"
    else LookbackClause
  }

  /** One `SELECT` statement, terminated by `;`. */
  function Statement(topic: string, clause: string): string
  {
    SelectValue + "\"" + EscapeFirstQuote(topic) + "\"" + clause + ";"
  }

  /** The statements for the first `n` topics, in topic order; each adds at least one character. */
  function GraphQuery(topics: seq<string>, lastUpdate: map<int, Instant>, format: Instant -> string, n: nat): (r: string)
    requires n <= |topics|
    ensures |r| >= n
  {
    if n == 0 then ""
    else
      GraphQuery(topics, lastUpdate, format, n - 1)
      + Statement(topics[n - 1], SinceClause(lastUpdate, n - 1, format))
  }

  /** The text for the first `m` topics is a prefix of the text for the first `n`. */
  lemma {:induction false} GraphQueryPrefix(topics: seq<string>, lastUpdate: map<int, Instant>, format: Instant -> string, m: nat, n: nat)
    requires m <= n <= |topics|
    ensures GraphQuery(topics, lastUpdate, format, m) <= GraphQuery(topics, lastUpdate, format, n)
    decreases n - m
  {
    if m < n {
      GraphQueryPrefix(topics, lastUpdate, format, m, n - 1);
      var shorter := GraphQuery(topics, lastUpdate, format, n - 1);
      var last := Statement(topics[n - 1], SinceClause(lastUpdate, n - 1, format));
      assert GraphQuery(topics, lastUpdate, format, n) == shorter + last;
      PrefixOfLonger(GraphQuery(topics, lastUpdate, format, m), shorter, last);
    }
  }

  /**
   * The query lists the topics in order: the text for the first `k` topics,
   * followed by topic `k`'s statement, is a prefix of the whole query.
   */
  lemma GraphQueryInOrder(topics: seq<string>, lastUpdate: map<int, Instant>, format: Instant -> string, k: nat, n: nat)
    requires k < n <= |topics|
    ensures var upTo := GraphQuery(topics, lastUpdate, format, k + 1);
      && upTo == GraphQuery(topics, lastUpdate, format, k) + Statement(topics[k], SinceClause(lastUpdate, k, format))
      && upTo <= GraphQuery(topics, lastUpdate, format, n)
  {
    GraphQueryStep(topics, lastUpdate, format, k);
    GraphQueryPrefix(topics, lastUpdate, format, k + 1, n);
  }

  /** One more topic appends its statement. */
  lemma GraphQueryStep(topics: seq<string>, lastUpdate: map<int, Instant>, format: Instant -> string, k: nat)
    requires k < |topics|
    ensures GraphQuery(topics, lastUpdate, format, k + 1)
      == GraphQuery(topics, lastUpdate, format, k) + Statement(topics[k], SinceClause(lastUpdate, k, format))
  {
  }

  /** A prefix of a string stays a prefix when text is appended. */
  lemma PrefixOfLonger(a: string, b: string, c: string)
    requires a <= b
    ensures a <= b + c
  {
    assert (b + c)[..|a|] == b[..|a|];
  }

  /**
   * Where the high-water marks track the buffers, a topic's clause asks for
   * samples strictly after the last one it holds, and an empty buffer asks
   * for the 24 h lookback.
   */
  lemma ClauseResumesAfterBuffer(st: Store, j: int, format: Instant -> string)
    requires MarksTrackBuffers(st) && 0 <= j < |st.data|
    ensures SinceClause(st.lastUpdate, j, format) ==
      if st.data[j] == [] then LookbackClause
      else " WHERE time > '" + format(st.data[j][|st.data[j]| - 1].x) + "'"
  {
  }

  /** A topic with two quotes keeps its second one bare. */
  lemma EscapeExample()
    ensures EscapeFirstQuote("a\"b\"c") == "a\\\"b\"c"
  {
    assert "a\"b\"c"[1..] == "\"b\"c";
  }

  /** The state-feed query resuming one second after instant text `t`. */
  function StateResumeQuery(t: string): string
  {
    "SELECT * FROM \"revspace/state\" WHERE time > '" + t + "' + 1s;"
  }

  /**
   * The state-feed query (`updateSpaceState`): the lookback on an empty list,
   * otherwise one second past the start of the last block. A last block with
   * a null start cannot be formatted (the formatter throws on null), which
   * is `None`.
   */
  function StateQuery(blocks: seq<Block>, format: Instant -> string): (r: Option<string>)
    ensures r == Some(StateLookbackQuery) <==> blocks == []
    ensures r.None? <==> blocks != [] && blocks[|blocks| - 1].start.None?
  {
    if |blocks| == 0 then Some(StateLookbackQuery)
    else match blocks[|blocks| - 1].start
      case None => None
      case Some(t) =>
        ResumeIsNotLookback(format(t));
        Some(StateResumeQuery(format(t)))
  }

  /** The two forms of the state-feed query differ right after `time > `. */
  lemma ResumeIsNotLookback(t: string)
    ensures StateResumeQuery(t) != StateLookbackQuery
  {
    var at := |"SELECT * FROM \"revspace/state\" WHERE time > "|;
    assert StateResumeQuery(t)[at] == '\'';
    assert StateLookbackQuery[at] == 'n';
  }

  /**
   * After a rebuild the state query can be formed exactly when the batch
   * changed the state or the popped block had a start. Otherwise the last
   * block has a null start, which the formatter throws on.
   */
  lemma StateQueryAfterCompact(blocks: seq<Block>, events: seq<Row<State>>, now: Instant, format: Instant -> string)
    ensures StateQuery(Compact(blocks, events, now), format).Some? <==>
      Changes(ResumeMark(blocks).state, events) > 0 || ResumeMark(blocks).start.Some?
  {
    CompactLastBlock(blocks, events, now);
  }
}
