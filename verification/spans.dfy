/**
 * State-span compaction: a batch of `(time, state)` events is folded into the
 * list of blocks `[start, end, state]` that the chart paints behind the
 * samples (graph.js, `spaceStateDataReceived`).
 *
 * The list is rebuilt incrementally: its trailing block is popped and its
 * `(start, state)` becomes the running mark; a block is closed each time an
 * event's state differs from the running state; one final block, ending at
 * "now", is pushed at the end. This module gives that rebuild as a function of
 * the old list and the batch, and proves what it guarantees.
 */
module Spans {

  import opened Wrappers
  import opened Influx

  /** A state value; `None` is JavaScript `null`, the state before any event. */
  type State = Option<string>

  /** A block `[start, end, state]`; a `None` start means "since the beginning". */
  datatype Block = Block(start: Option<Instant>, end: Instant, state: State)

  /** The running pair `(prevTime, prevState)` of the scan. */
  datatype Mark = Mark(start: Option<Instant>, state: State)

  /** Each block starts where the previous one ends. */
  ghost predicate Contiguous(blocks: seq<Block>)
  {
    forall i :: 0 < i < |blocks| ==> blocks[i].start == Some(blocks[i - 1].end)
  }

  /** Neighbouring blocks never hold the same state. */
  ghost predicate Alternating(blocks: seq<Block>)
  {
    forall i :: 0 < i < |blocks| ==> blocks[i].state != blocks[i - 1].state
  }

  ghost predicate WellFormed(blocks: seq<Block>)
  {
    Contiguous(blocks) && Alternating(blocks)
  }

  /**
   * The blocks the scan pushes from mark `m` over `events`, including the
   * final block ending at `now`.
   */
  function Run(m: Mark, events: seq<Row<State>>, now: Instant): (r: seq<Block>)
    ensures r != []
    decreases |events|
  {
    if events == [] then
      [Block(m.start, now, m.state)]
    else if m.state != events[0].value then
      [Block(m.start, events[0].time, m.state)]
        + Run(Mark(Some(events[0].time), events[0].value), events[1..], now)
    else
      Run(m, events[1..], now)
  }

  /** The running mark the scan resumes from: the popped block's, or `(null, null)`. */
  function ResumeMark(blocks: seq<Block>): Mark
  {
    if blocks == [] then Mark(None, None)
    else Mark(blocks[|blocks| - 1].start, blocks[|blocks| - 1].state)
  }

  /** The blocks left in place by the pop. */
  function Closed(blocks: seq<Block>): seq<Block>
  {
    if blocks == [] then [] else blocks[..|blocks| - 1]
  }

  /** The list after one batch of events: never empty, and the kept blocks come first. */
  function Compact(blocks: seq<Block>, events: seq<Row<State>>, now: Instant): (r: seq<Block>)
    ensures r != [] && Closed(blocks) <= r
  {
    Closed(blocks) + Run(ResumeMark(blocks), events, now)
  }

  /**
   * The number of state changes in `events` when the running state before
   * the first of them is `s`: an independent count, not the scan.
   */
  function Changes(s: State, events: seq<Row<State>>): nat
    decreases |events|
  {
    if events == [] then 0
    else (if s != events[0].value then 1 else 0) + Changes(events[0].value, events[1..])
  }

  /** The state in force just before event `j`. */
  function Prior(s: State, events: seq<Row<State>>, j: int): State
    requires 0 <= j < |events|
  {
    if j == 0 then s else events[j - 1].value
  }

  /** The state in force after the whole batch. */
  function FinalState(s: State, events: seq<Row<State>>): State
  {
    if events == [] then s else events[|events| - 1].value
  }

  /** A batch with no change keeps every event at the running state. */
  lemma {:induction false} NoChangeMeansConstant(s: State, events: seq<Row<State>>)
    requires Changes(s, events) == 0
    ensures forall k :: 0 <= k < |events| ==> events[k].value == s
    decreases |events|
  {
    if events != [] {
      NoChangeMeansConstant(events[0].value, events[1..]);
      forall k | 0 <= k < |events| ensures events[k].value == s {
        if k > 0 { assert events[k] == events[1..][k - 1]; }
      }
    }
  }

  /** One block per state change, plus the final one. */
  lemma {:induction false} RunLength(m: Mark, events: seq<Row<State>>, now: Instant)
    ensures |Run(m, events, now)| == Changes(m.state, events) + 1
    decreases |events|
  {
    if events != [] {
      if m.state != events[0].value {
        RunLength(Mark(Some(events[0].time), events[0].value), events[1..], now);
      } else {
        RunLength(m, events[1..], now);
      }
    }
  }

  /**
   * The pushed blocks are contiguous and alternating, and the first of them
   * starts at the running mark's start with the running state.
   */
  lemma {:induction false} RunWellFormed(m: Mark, events: seq<Row<State>>, now: Instant)
    ensures var r := Run(m, events, now);
      WellFormed(r) && r[0].start == m.start && r[0].state == m.state
    decreases |events|
  {
    if events != [] {
      var e := events[0];
      if m.state != e.value {
        var m' := Mark(Some(e.time), e.value);
        RunWellFormed(m', events[1..], now);
        var tail := Run(m', events[1..], now);
        var r := [Block(m.start, e.time, m.state)] + tail;
        assert Run(m, events, now) == r;
        forall i | 0 < i < |r| ensures r[i].start == Some(r[i - 1].end) && r[i].state != r[i - 1].state {
          if i > 1 {
            assert r[i] == tail[i - 1] && r[i - 1] == tail[i - 2];
          }
        }
      } else {
        RunWellFormed(m, events[1..], now);
      }
    }
  }

  /**
   * The final block ends at `now` and holds the state of the last event (or
   * the running state for an empty batch).
   */
  lemma {:induction false} RunLastBlock(m: Mark, events: seq<Row<State>>, now: Instant)
    ensures var r := Run(m, events, now);
      r[|r| - 1].end == now && r[|r| - 1].state == FinalState(m.state, events)
    decreases |events|
  {
    if events != [] {
      var e := events[0];
      var m' := if m.state != e.value then Mark(Some(e.time), e.value) else m;
      RunLastBlock(m', events[1..], now);
      assert events[1..] != [] ==> events[|events| - 1] == events[1..][|events[1..]| - 1];
    }
  }

  /**
   * The final block starts at the running mark's start when nothing changes,
   * and otherwise at the time of the last change: an event whose state
   * differs from the one before it, after which the state stays put.
   */
  lemma {:induction false} RunLastStart(m: Mark, events: seq<Row<State>>, now: Instant)
    ensures var r := Run(m, events, now);
      && (Changes(m.state, events) == 0 ==> r[|r| - 1].start == m.start)
      && (Changes(m.state, events) > 0 ==>
            exists j :: 0 <= j < |events| && r[|r| - 1].start == Some(events[j].time)
              && events[j].value != Prior(m.state, events, j)
              && forall k :: j < k < |events| ==> events[k].value == events[j].value)
    decreases |events|
  {
    if events != [] {
      var e, rest := events[0], events[1..];
      var r := Run(m, events, now);
      if m.state != e.value {
        var m' := Mark(Some(e.time), e.value);
        RunLastStart(m', rest, now);
        var tail := Run(m', rest, now);
        assert r == [Block(m.start, e.time, m.state)] + tail;
        assert r[|r| - 1] == tail[|tail| - 1];
        if Changes(e.value, rest) == 0 {
          NoChangeMeansConstant(e.value, rest);
          forall k | 0 < k < |events| ensures events[k].value == events[0].value {
            assert events[k] == rest[k - 1];
          }
          assert events[0].value != Prior(m.state, events, 0);
        } else {
          var j' :| 0 <= j' < |rest| && tail[|tail| - 1].start == Some(rest[j'].time)
            && rest[j'].value != Prior(m'.state, rest, j')
            && forall k :: j' < k < |rest| ==> rest[k].value == rest[j'].value;
          var j := j' + 1;
          assert events[j] == rest[j'];
          assert Prior(m.state, events, j) == Prior(m'.state, rest, j');
          forall k | j < k < |events| ensures events[k].value == events[j].value {
            assert events[k] == rest[k - 1];
          }
        }
      } else {
        RunLastStart(m, rest, now);
        assert r == Run(m, rest, now);
        if Changes(m.state, events) > 0 {
          var j' :| 0 <= j' < |rest| && r[|r| - 1].start == Some(rest[j'].time)
            && rest[j'].value != Prior(m.state, rest, j')
            && forall k :: j' < k < |rest| ==> rest[k].value == rest[j'].value;
          var j := j' + 1;
          assert events[j] == rest[j'];
          assert Prior(m.state, events, j) == Prior(m.state, rest, j');
          forall k | j < k < |events| ensures events[k].value == events[j].value {
            assert events[k] == rest[k - 1];
          }
        }
      }
    }
  }

  /**
   * Repeated states are absorbed: inserting, anywhere in the batch, an event
   * whose state equals the state in force at that point pushes nothing.
   */
  lemma {:induction false} RunAbsorbsRepeat(m: Mark, events: seq<Row<State>>, k: nat, e: Row<State>, now: Instant)
    requires k <= |events|
    requires e.value == (if k == 0 then m.state else events[k - 1].value)
    ensures Run(m, events[..k] + [e] + events[k..], now) == Run(m, events, now)
    decreases k
  {
    var longer := events[..k] + [e] + events[k..];
    if k == 0 {
      assert longer == [e] + events;
      assert longer[1..] == events;
    } else {
      var x := events[0];
      var rest := events[1..];
      assert longer[0] == x;
      assert longer[1..] == rest[..k - 1] + [e] + rest[k - 1..];
      if m.state != x.value {
        var m' := Mark(Some(x.time), x.value);
        assert e.value == if k - 1 == 0 then m'.state else rest[k - 2].value;
        RunAbsorbsRepeat(m', rest, k - 1, e, now);
        assert Run(m, longer, now) == [Block(m.start, x.time, m.state)] + Run(m', longer[1..], now);
      } else {
        assert e.value == if k - 1 == 0 then m.state else rest[k - 2].value;
        RunAbsorbsRepeat(m, rest, k - 1, e, now);
        assert Run(m, longer, now) == Run(m, longer[1..], now);
      }
    }
  }

  /** Joining two well-formed lists whose seam is contiguous and alternating. */
  lemma JoinWellFormed(a: seq<Block>, b: seq<Block>)
    requires WellFormed(a) && WellFormed(b)
    requires a != [] && b != [] ==>
      b[0].start == Some(a[|a| - 1].end) && b[0].state != a[|a| - 1].state
    ensures WellFormed(a + b)
  {
    var ab := a + b;
    forall i | 0 < i < |ab| ensures ab[i].start == Some(ab[i - 1].end) && ab[i].state != ab[i - 1].state {
      if i < |a| {
        assert ab[i] == a[i] && ab[i - 1] == a[i - 1];
      } else if i == |a| {
        assert ab[i] == b[0] && ab[i - 1] == a[|a| - 1];
      } else {
        assert ab[i] == b[i - |a|] && ab[i - 1] == b[i - 1 - |a|];
      }
    }
  }

  /**
   * Compaction keeps the list well formed: contiguous, and no two
   * neighbouring blocks with the same state.
   */
  lemma CompactWellFormed(blocks: seq<Block>, events: seq<Row<State>>, now: Instant)
    requires WellFormed(blocks)
    ensures WellFormed(Compact(blocks, events, now))
  {
    var m := ResumeMark(blocks);
    RunWellFormed(m, events, now);
    var closed := Closed(blocks);
    if closed != [] {
      var n := |blocks|;
      assert closed[|closed| - 1] == blocks[n - 2];
      assert blocks[n - 1].start == Some(blocks[n - 2].end);
      assert blocks[n - 1].state != blocks[n - 2].state;
    }
    assert WellFormed(closed) by {
      forall i | 0 < i < |closed| ensures closed[i].start == Some(closed[i - 1].end) && closed[i].state != closed[i - 1].state {
        assert closed[i] == blocks[i] && closed[i - 1] == blocks[i - 1];
      }
    }
    JoinWellFormed(closed, Run(m, events, now));
  }

  /**
   * The new length: from a non-empty list, the old length plus the number of
   * state changes; from an empty list, the changes plus one.
   */
  lemma CompactLength(blocks: seq<Block>, events: seq<Row<State>>, now: Instant)
    ensures |Compact(blocks, events, now)| ==
      (if blocks == [] then 1 else |blocks|) + Changes(ResumeMark(blocks).state, events)
  {
    RunLength(ResumeMark(blocks), events, now);
  }

  /**
   * Every block but the last is kept as it was, and the first rebuilt block
   * starts where the popped block started, with its state.
   */
  lemma CompactKeepsClosedBlocks(blocks: seq<Block>, events: seq<Row<State>>, now: Instant)
    requires blocks != []
    ensures var r := Compact(blocks, events, now); var n := |blocks|;
      |r| >= n && r[..n - 1] == blocks[..n - 1]
      && r[n - 1].start == blocks[n - 1].start && r[n - 1].state == blocks[n - 1].state
  {
    var n := |blocks|;
    RunWellFormed(ResumeMark(blocks), events, now);
    var r := Compact(blocks, events, now);
    assert r[n - 1] == Run(ResumeMark(blocks), events, now)[0];
  }

  /**
   * The last block always ends at "now"; it holds the state of the last
   * event, and starts at the time of the last state change (or where the
   * popped block started when the batch changes nothing).
   */
  lemma CompactLastBlock(blocks: seq<Block>, events: seq<Row<State>>, now: Instant)
    ensures var r := Compact(blocks, events, now); var m := ResumeMark(blocks);
      && r != []
      && r[|r| - 1].end == now
      && r[|r| - 1].state == FinalState(m.state, events)
      && (Changes(m.state, events) == 0 ==> r[|r| - 1].start == m.start)
      && (Changes(m.state, events) > 0 ==>
            exists j :: 0 <= j < |events| && r[|r| - 1].start == Some(events[j].time)
              && events[j].value != Prior(m.state, events, j)
              && forall k :: j < k < |events| ==> events[k].value == events[j].value)
  {
    var m := ResumeMark(blocks);
    var run := Run(m, events, now);
    RunLength(m, events, now);
    RunLastBlock(m, events, now);
    RunLastStart(m, events, now);
    var r := Compact(blocks, events, now);
    assert r[|r| - 1] == run[|run| - 1];
  }

  /**
   * A batch without a state change leaves every block as it was, except that
   * the last block's end is refreshed to "now".
   */
  lemma CompactWithoutChange(blocks: seq<Block>, events: seq<Row<State>>, now: Instant)
    requires blocks != []
    requires Changes(ResumeMark(blocks).state, events) == 0
    ensures var n := |blocks|;
      Compact(blocks, events, now) == blocks[..n - 1] + [blocks[n - 1].(end := now)]
  {
    var m := ResumeMark(blocks);
    RunLength(m, events, now);
    RunWellFormed(m, events, now);
    RunLastBlock(m, events, now);
    var run := Run(m, events, now);
    assert run == [run[0]];
  }

  /**
   * From an empty list, a first event with a non-null state closes the
   * leading block `[null, t0, null]`.
   */
  lemma CompactFromEmpty(events: seq<Row<State>>, now: Instant)
    requires events != [] && events[0].value != None
    ensures Compact([], events, now)[0] == Block(None, events[0].time, None)
  {
  }

  /** No block runs backwards: a block with a start starts no later than it ends. */
  ghost predicate Ordered(blocks: seq<Block>)
  {
    forall i :: 0 <= i < |blocks| && blocks[i].start.Some? ==> blocks[i].start.value <= blocks[i].end
  }

  /**
   * A running start, a batch and "now" in time order: the events are sorted,
   * none is before the start (the state query asks for events after it) and
   * none is after "now".
   */
  ghost predicate InOrder(start: Option<Instant>, events: seq<Row<State>>, now: Instant)
  {
    && (forall i, k :: 0 <= i < k < |events| ==> events[i].time <= events[k].time)
    && (forall k :: 0 <= k < |events| ==> events[k].time <= now)
    && (start.Some? ==> start.value <= now && forall k :: 0 <= k < |events| ==> start.value <= events[k].time)
  }

  /** A scan over a batch in time order pushes no block that runs backwards. */
  lemma {:induction false} RunOrdered(m: Mark, events: seq<Row<State>>, now: Instant)
    requires InOrder(m.start, events, now)
    ensures Ordered(Run(m, events, now))
    decreases |events|
  {
    if events != [] {
      var e, rest := events[0], events[1..];
      assert forall k :: 0 <= k < |rest| ==> rest[k] == events[k + 1];
      if m.state != e.value {
        var m' := Mark(Some(e.time), e.value);
        assert InOrder(m'.start, rest, now);
        RunOrdered(m', rest, now);
        var tail := Run(m', rest, now);
        var r := [Block(m.start, e.time, m.state)] + tail;
        assert Run(m, events, now) == r;
        forall i | 0 <= i < |r| && r[i].start.Some? ensures r[i].start.value <= r[i].end {
          if i > 0 { assert r[i] == tail[i - 1]; }
        }
      } else {
        assert InOrder(m.start, rest, now);
        RunOrdered(m, rest, now);
      }
    }
  }

  /**
   * Compaction keeps every block running forwards, when the batch comes in
   * time order after the popped block's start and no later than "now".
   */
  lemma CompactOrdered(blocks: seq<Block>, events: seq<Row<State>>, now: Instant)
    requires Ordered(blocks)
    requires InOrder(ResumeMark(blocks).start, events, now)
    ensures Ordered(Compact(blocks, events, now))
  {
    var closed, run := Closed(blocks), Run(ResumeMark(blocks), events, now);
    RunOrdered(ResumeMark(blocks), events, now);
    var r := closed + run;
    forall i | 0 <= i < |r| && r[i].start.Some? ensures r[i].start.value <= r[i].end {
      if i < |closed| {
        assert r[i] == blocks[i];
      } else {
        assert r[i] == run[i - |closed|];
      }
    }
  }

  /**
   * The events `open` at t0, `open` at t1, `closed` at t2 on an empty list give
   * exactly three blocks: the leading null block, one `open` block (the
   * repeat at t1 pushes nothing) and the open-ended `closed` block.
   */
  lemma CompactExample(t0: Instant, t1: Instant, t2: Instant, now: Instant)
    ensures Compact([], [Row(t0, Some("open")), Row(t1, Some("open")), Row(t2, Some("closed"))], now)
      == [Block(None, t0, None), Block(Some(t0), t2, Some("open")), Block(Some(t2), now, Some("closed"))]
  {
    var events := [Row(t0, Some("open")), Row(t1, Some("open")), Row(t2, Some("closed"))];
    var open, closed := Mark(Some(t0), Some("open")), Mark(Some(t2), Some("closed"));
    assert events[1..][1..] == [Row(t2, Some("closed"))];
    assert Run(closed, [], now) == [Block(Some(t2), now, Some("closed"))];
    assert Run(open, events[1..][1..], now) == [Block(Some(t0), t2, Some("open"))] + Run(closed, [], now);
    assert Run(open, events[1..], now) == Run(open, events[1..][1..], now);
    assert Run(Mark(None, None), events, now) == [Block(None, t0, None)] + Run(open, events[1..], now);
  }

  /**
   * Two state polls in flight at once: both queries are built from the start
   * 3000 ms of the open block and ask for events more than a second after it,
   * so each batch is in order after that start. The slower reply arrives
   * after the faster one has already rebuilt the list, repeats the change at
   * 5000, and pushes a block from 6000 back to 5000.
   */
  lemma OverlappingRepliesUnorder()
    ensures var start := [Block(None, 3000, None), Block(Some(3000), 4000, Some("open"))];
      var first := [Row(5000, Some("closed")), Row(6000, Some("open"))];
      var second := [Row(5000, Some("closed")), Row(6000, Some("open")), Row(8000, Some("closed"))];
      var after := Compact(Compact(start, first, 7000), second, 9000);
      && WellFormed(start) && Ordered(start)
      && (forall k :: 0 <= k < |first| ==> first[k].time > 3000 + 1000)
      && (forall k :: 0 <= k < |second| ==> second[k].time > 3000 + 1000)
      && InOrder(ResumeMark(start).start, first, 7000) && InOrder(ResumeMark(start).start, second, 9000)
      && |after| > 3 && after[3] == Block(Some(6000), 5000, Some("open"))
      && !Ordered(after)
  {
    var start := [Block(None, 3000, None), Block(Some(3000), 4000, Some("open"))];
    var first := [Row(5000, Some("closed")), Row(6000, Some("open"))];
    var second := [Row(5000, Some("closed")), Row(6000, Some("open")), Row(8000, Some("closed"))];
    var open3, closed5, open6 :=
      Mark(Some(3000), Some("open")), Mark(Some(5000), Some("closed")), Mark(Some(6000), Some("open"));
    assert first[1..][1..] == [];
    assert Run(open6, [], 7000) == [Block(Some(6000), 7000, Some("open"))];
    assert Run(closed5, first[1..], 7000) == [Block(Some(5000), 6000, Some("closed"))] + Run(open6, [], 7000);
    assert Run(open3, first, 7000) == [Block(Some(3000), 5000, Some("open"))] + Run(closed5, first[1..], 7000);
    var middle := Compact(start, first, 7000);
    assert middle == [Block(None, 3000, None), Block(Some(3000), 5000, Some("open")),
                      Block(Some(5000), 6000, Some("closed")), Block(Some(6000), 7000, Some("open"))];
    assert ResumeMark(middle) == open6;
    var run := Run(open6, second, 9000);
    assert run == [Block(Some(6000), 5000, Some("open"))] + Run(closed5, second[1..], 9000);
    var after := Compact(middle, second, 9000);
    assert after == Closed(middle) + run;
    assert after[3] == run[0];
  }

  /**
   * A browser clock behind the database: an event stamped after the local
   * "now" leaves the open block ending before it starts, with a single reply.
   */
  lemma ClockSkewUnorders()
    ensures var after := Compact([], [Row(10, Some("open"))], 5);
      && |after| == 2 && after[1] == Block(Some(10), 5, Some("open"))
      && !Ordered(after)
  {
    var events := [Row(10, Some("open"))];
    assert events[1..] == [];
    assert Run(Mark(None, None), events, 5)
      == [Block(None, 10, None)] + Run(Mark(Some(10), Some("open")), [], 5);
  }
}
