/**
 * The module-level block list `spaceState` of graph.js and the callback that
 * rebuilds it from a state-feed reply (`spaceStateDataReceived`).
 */
module SpaceStateFeed {

  import opened Wrappers
  import opened Influx
  import opened Spans

  /** True when a reply gets as far as the rebuild: a body whose first result has a series. */
  predicate Feeds(reply: Reply<State>)
  {
    reply.Body? && reply.results.Some? && |reply.results.value| > 0
    && reply.results.value[0].series.Some?
  }

  /** The events of the first series of a reply that feeds the rebuild. */
  function Events(reply: Reply<State>): seq<Row<State>>
    requires Feeds(reply)
  {
    reply.results.value[0].series.value.values
  }

  class SpaceState {

    /** The blocks `[start, end, state]`, oldest first. */
    var blocks: seq<Block>

    ghost predicate Valid()
      reads this
    {
      WellFormed(blocks)
    }

    /** The list starts out empty. */
    constructor ()
      ensures Valid() && blocks == []
    {
      blocks := [];
    }

    /**
     * Handles one reply of the state feed, with `now` the current time.
     * An error, a missing `results` field, an empty `results` array (whose
     * first element the code dereferences before changing anything) or a
     * first result without a series leaves the list alone; otherwise the
     * trailing block is popped and the list rebuilt as `Compact` says.
     */
    method DataReceived(reply: Reply<State>, now: Instant)
      requires Valid()
      modifies this
      ensures Valid()
      ensures !Feeds(reply) ==> blocks == old(blocks)
      ensures Feeds(reply) ==> blocks == Compact(old(blocks), Events(reply), now)
      ensures Feeds(reply) && Ordered(old(blocks)) && InOrder(ResumeMark(old(blocks)).start, Events(reply), now) ==>
        Ordered(blocks)
    {
      if reply.TransportError? || reply.results.None? {
        return;
      }
      var results := reply.results.value;
      if |results| == 0 || results[0].series.None? {
        return;
      }
      var newData := results[0].series.value.values;

      var prevTime: Option<Instant>, prevState: State;
      if |blocks| > 0 {
        var prevBlock := blocks[|blocks| - 1];
        blocks := blocks[..|blocks| - 1];
        prevTime, prevState := prevBlock.start, prevBlock.state;
      } else {
        blocks := [];
        prevTime, prevState := None, None;
      }

      ghost var target := Compact(old(blocks), newData, now);
      var i := 0;
      while i < |newData|
        invariant 0 <= i <= |newData|
        invariant blocks + Run(Mark(prevTime, prevState), newData[i..], now) == target
      {
        var time, state := newData[i].time, newData[i].value;
        assert newData[i..][0] == newData[i] && newData[i..][1..] == newData[i + 1..];
        if prevState != state {
          blocks := blocks + [Block(prevTime, time, prevState)];
          prevState, prevTime := state, Some(time);
        }
        i := i + 1;
      }
      blocks := blocks + [Block(prevTime, now, prevState)];
      CompactWellFormed(old(blocks), newData, now);
      if Ordered(old(blocks)) && InOrder(ResumeMark(old(blocks)).start, newData, now) {
        CompactOrdered(old(blocks), newData, now);
      }
    }
  }
}
