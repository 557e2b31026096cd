# grafiekje: verified model of the chart's data bookkeeping

grafiekje is a browser chart that polls an InfluxDB database for new samples
of a set of MQTT topics. It draws those samples over a timeline of the
hackerspace's open/closed state. The drawing is done with d3. This project
models the three pieces of `graph.js` that keep state between polls, and
proves what they guarantee:

- **State-span compaction** (`spaceStateDataReceived`). The module-level list
  `spaceState` holds blocks `[start, end, state]`. Each reply of the state
  feed pops the trailing open block and resumes from its start and state. It
  closes a block at every state change and pushes a final block that ends at
  "now". `Spans` states the rebuild as a function `Compact` of the old list
  and the batch, and proves what it guarantees. `SpaceStateFeed.SpaceState`
  is the list itself: a class whose `DataReceived` method rebuilds it in place
  by popping and pushing, and is proved equal to `Compact`.
- **Incremental sample ingestion** (`graphDataReceived`). Each chart has one
  sample buffer per topic (`graph.data`) and a high-water mark per topic
  (`graph.lastUpdate`). `Ingestion` states one batch as a function `Ingest`
  and proves what it does to every buffer and mark. `Graphs.Graph` is the
  chart object: its `DataReceived` method runs the `for...of` loop over the
  results and is proved equal to `Ingest`. It also returns whether autoscale
  is requested, and with which samples.
- **Incremental query construction** (`updateGraph`, `updateSpaceState`).
  `Graphs.Graph.Query` builds the per-topic `SELECT` statements with `+=` in a
  loop. `Queries` gives the statements, the escaping of topic names and the
  state-feed query, and relates them to what the buffers and blocks hold.

Modelling choices:

- Instants are integers.
- The ISO-8601 parser of the reply's time column is taken as the identity:
  rows carry instants.
- The ISO-8601 formatter `influxTime` is a function parameter `format`.
- "Now" (`new Date()`) is a method parameter.
- A state is `Option<string>`, since JavaScript `null` is a legal state.
- A statement result keeps only `series[0]`, the only series the code reads.

Behaviour worth noting:

- An unknown topic aborts the rest of the batch with `return`, and skips
  autoscale (graph.js:119).
- On an empty list, a batch whose first series exists always pushes a final
  block, even when the batch is empty: that block is `[null, now, null]`.
- From an empty list, the events `open`, `open`, `closed` give three blocks,
  starting with `[null, t0, null]` (`Spans.CompactExample`).
- The open block always ends at "now" (graph.js:166).
- Autoscale is judged from the first topic's buffer alone (graph.js:111).
- A topic configured twice breaks the time order of its buffer. The second
  copy never gets a mark of its own, so its statement always asks for the
  24 h lookback (graph.js:173-176). `indexOf` sends those samples to the
  first copy's buffer as well (graph.js:117, graph.js:122). On the very
  first poll, the buffer gets the same rows twice
  (`Ingestion.DuplicateTopicUnsorts`).
- Both polling loops re-arm their timer whether or not the last reply has
  arrived (graph.js:180, graph.js:190). Two queries built from the same mark
  or start can then be in flight at once. The slower reply meets a list or
  buffer that the faster one has already moved on. It then pushes a block
  that runs backwards (`Spans.OverlappingRepliesUnorder`), or appends samples
  a second time (`Ingestion.OverlappingRepliesUnsort`).

## Model

| member | source | states |
|---|---|---|
| `Spans.Run` | graph.js:155-166 | The blocks the scan pushes from a running start and state: one block closed at each event whose state differs from the running state, then a final block ending at "now". The result is never empty. |
| `Spans.Compact` | graph.js:144-166 | The list after a batch: the blocks before the popped one, followed by the scan resumed from the popped block's start and state, or from `(null, null)` on an empty list. It is never empty, and the kept blocks come first. |
| `Spans.RunWellFormed` | graph.js:155-166 | The blocks a scan pushes are contiguous: each starts where the previous one ends. Neighbours differ in state. The first pushed block starts at the running start with the running state. |
| `Spans.RunLength` | graph.js:155-166 | A scan pushes one block per state change, plus the final block. |
| `Spans.RunLastBlock` | graph.js:155-166 | The final block ends at "now". It holds the last event's state, or the running state when the batch is empty. |
| `Spans.RunLastStart` | graph.js:155-166 | The final block starts at the running start when nothing changes. Otherwise it starts at the time of the last change: an event whose state differs from the state before it, with no change after it. |
| `Spans.RunAbsorbsRepeat` | graph.js:159-163 | An event inserted anywhere whose state equals the state in force there pushes nothing: the scan's result is unchanged. |
| `Spans.CompactWellFormed` | graph.js:144-166 | If the list was contiguous with neighbours of different states, it stays so after a rebuild. This includes the seam between the kept blocks and the rebuilt ones. |
| `Spans.CompactLength` | graph.js:144-166 | New length: the old length plus the state changes for a non-empty list, or the changes plus one for an empty list. |
| `Spans.CompactKeepsClosedBlocks` | graph.js:145-148 | Every block before the popped one is unchanged. The first rebuilt block starts at the popped block's start, with its state. |
| `Spans.CompactLastBlock` | graph.js:155-166 | The last block ends at "now" and holds the final state. It starts at the time of the last change, or at the popped block's start when nothing changed. |
| `Spans.CompactWithoutChange` | graph.js:145-166 | A batch without a state change leaves every block as it was, except that the last block's end becomes "now". |
| `Spans.CompactFromEmpty` | graph.js:149-160 | From an empty list, a first event with a non-null state yields the leading block `[null, t0, null]`. |
| `Spans.CompactExample` | graph.js:144-166 | `open`, `open`, `closed` on an empty list give exactly `[null,t0,null]`, `[t0,t2,open]`, `[t2,now,closed]`. The repeated `open` adds no block. |
| `Spans.RunOrdered` | graph.js:155-166 | When the events are in time order, none is before the running start, and none is after "now", no pushed block ends before it starts. |
| `Spans.CompactOrdered` | graph.js:144-166 | When no block of the old list runs backwards, and the batch is in time order between the popped block's start and "now", no block of the rebuilt list runs backwards. The batch meets this condition only when it answers a query built from the list as it now stands. |
| `Spans.OverlappingRepliesUnorder` | graph.js:144-166 | Two replies to the same state query, built from the open block's start 3000 ms, are applied one after the other. Every event of each batch is after that start + 1 s, as the query asks, and each batch is in order. The second reply still pushes the block `[6000, 5000, open]`, which runs backwards. |
| `Spans.ClockSkewUnorders` | graph.js:144-166 | With a browser clock behind the database, one event stamped after the local "now" leaves the final block `[10, 5, open]`, which runs backwards. |
| `SpaceStateFeed.SpaceState.constructor` | graph.js:16 | The block list starts empty, which is well formed. |
| `SpaceStateFeed.SpaceState.DataReceived` | graph.js:134-167 | An error, a missing `results` or a first result without a series leaves the list unchanged. So does an empty `results` array: the code throws on it before it changes anything. Otherwise the pop, scan and push rebuild the list to exactly `Compact` of the old list and the first series' rows. The list stays well formed. When the batch is in time order between the popped block's start and "now", no block runs backwards, provided none did before. |
| `Ingestion.Ingest` | graph.js:113-125 | The store after a batch: each result with a series for a known topic appends its samples to that topic's buffer and moves its mark. A result without a series is skipped. The first unknown topic stops the batch. There is still one buffer per topic afterwards. |
| `Ingestion.IndexOf` | graph.js:117 | Returns -1 exactly when the name is not a topic. Otherwise it returns the first position holding the name. |
| `Ingestion.FirstUnknown` | graph.js:113-119 | The position of the first result whose series names an unknown topic, or the batch length. Every earlier result is known. |
| `Ingestion.IngestStops` | graph.js:113-119 | A batch is cut short exactly when some result names an unknown topic. |
| `Ingestion.IngestAppends` | graph.js:113-125 | For every topic, the samples of the results before the first unknown topic that name it are appended to its buffer, in order. Its mark becomes the time of the last of them. A topic that gets no samples keeps its buffer and its mark. |
| `Ingestion.IngestKeepsMarks` | graph.js:121-124 | A batch preserves the invariant: each mark is the time of its buffer's last sample, and a buffer has a mark exactly when it is non-empty. |
| `Ingestion.FirstTopicFilled` | graph.js:111 | After a batch, the first topic's buffer is non-empty exactly when it already was, or the batch brought it samples before any unknown topic. Autoscale is judged from that buffer alone. |
| `Ingestion.AppendKeepsSorted` | graph.js:122-124 | A buffer stays in time order when the appended samples are in order and lie strictly after the topic's mark, which is what the topic's `time >` clause asks for when the reply answers a query built from the current mark. |
| `Ingestion.IngestKeepsSorted` | graph.js:113-125 | If every buffer is in time order and the marks track the buffers, the buffers stay in time order after a batch. This needs every ingested series to be in order and strictly after its topic's mark at the point it is reached. A reply meets this condition only when it answers a query built from the store as it now stands, with each topic configured once. |
| `Ingestion.DuplicateTopicUnsorts` | graph.js:113-125 | With the topic list `t`, `t` and a new chart's empty store, a reply answering both lookback statements with rows 1 and 5 leaves the first buffer as `[1, 5, 1, 5]`, out of time order. |
| `Ingestion.OverlappingRepliesUnsort` | graph.js:113-125 | Two replies to queries built from the same mark 3, each in order and after that mark, applied one after the other, leave the buffer as `[3, 4, 5, 4, 5, 6]`, out of time order. |
| `Graphs.Graph.constructor` | graph.js:290 | A new chart has an empty buffer per topic and no marks. |
| `Graphs.Graph.DataReceived` | graph.js:106-132 | An error or a missing `results` changes nothing and requests no autoscale. Otherwise the buffers and marks become exactly `Ingest` of the batch, and the mark invariant is kept. Autoscale is requested, on every sample of the batch, only if the first buffer was empty before the batch and no unknown topic ended it. When every ingested series is in order and after its topic's mark, buffers in time order stay in time order. |
| `Graphs.Graph.Query` | graph.js:169-178 | The `forEach` loop builds exactly the in-order concatenation of one `SELECT value FROM "<topic>"` statement per topic. Each has `time > '<mark>'` or the 24 h lookback, and ends with `;`. |
| `Graphs.Graph.AppendStatement` | graph.js:172-177 | The `forEach` callback for one topic: its three `+=` steps append exactly that topic's statement to the text so far. The clause is `time > '<mark>'` when the topic has a mark, and the 24 h lookback otherwise. |
| `Queries.EscapeFirstQuote` | graph.js:172 | A name without a double quote is unchanged. A name with one gets exactly one character longer. |
| `Queries.EscapeReplacesFirstQuote` | graph.js:172 | When the first quote is at position i, the result is the text before it, then `\"`, then the rest of the name unchanged. Later quotes are not escaped. |
| `Queries.EscapeExample` | graph.js:172 | `a"b"c` becomes `a\"b"c`: the second quote stays bare. |
| `Queries.GraphQuery` | graph.js:170-178 | The query text for the first n topics: their statements in topic order, each `SELECT value FROM "<topic>"` with its clause and `;`. It is empty only for no topics. |
| `Queries.GraphQueryPrefix` | graph.js:170-178 | The text for the first m topics is a prefix of the text for the first n topics, for m <= n: later topics only append. |
| `Queries.GraphQueryInOrder` | graph.js:170-178 | The text for the first k + 1 topics is the text for the first k followed by topic k's statement, and it is a prefix of the whole query. |
| `Queries.ClauseResumesAfterBuffer` | graph.js:173-176 | While the mark invariant holds, a topic's clause asks for samples strictly after its buffer's last sample. An empty buffer asks for the 24 h lookback. |
| `Queries.StateQuery` | graph.js:183-188 | The 24 h lookback on an empty list. Otherwise, the last block's start + 1s. It is `None` when that start is null. The lookback is chosen exactly when the list is empty. |
| `Queries.StateQueryAfterCompact` | graph.js:183-188 | After a rebuild, the state query can be formed exactly when the batch changed the state or the popped block had a start. With a null start the formatter throws. |

## Left out

- `updateScales` (graph.js:42-104): canvas and axis painting, and clipping of blocks to pixels. This is rendering with d3's floating-point scales.
- `autoScale` and `sensibleRange` (graph.js:23-40): d3 extents, quantile interpolation and `.nice()` rounding, in a library outside this model. Only the request for autoscale, and the samples it would be given, are modelled.
- `formatValue` (graph.js:193-198): a wrapper over `d3.formatPrefix`.
- `influxQuery` (graph.js:18-21): URL encoding and the `d3.json` network call. Replies are inputs to the callbacks.
- The `setTimeout` polling loops (graph.js:180, 190): timer scheduling.
- `setupGraph` and `setup` (graph.js:200-300): DOM, legend, scale and zoom wiring. The constructor takes the already prefixed topic list, which must be non-empty, as splitting a string always yields one part.
- ISO-8601 parsing and formatting (graph.js:14): the parser is the identity on instants, and the formatter is a parameter.
- A second or later series inside one statement result: the code reads only `series[0]`.
- The two crashes of `graphDataReceived` are not modelled as outcomes. They are preconditions of `Graphs.Graph.DataReceived`: an ingested series has at least one row (graph.js:124 reads the last one), and on a first fill that reaches autoscale every result has a series (graph.js:128). The other two crashes are modelled as outcomes: the empty `results` array at graph.js:138-139 leaves the list unchanged, and the formatter's throw at graph.js:186 is `None` from `StateQuery`.
- `Spans.CompactOrdered`: its condition `InOrder` holds only when each state reply arrives before the next poll builds its query. A slower reply breaks time order (`Spans.OverlappingRepliesUnorder`), and the model has no polling loop to rule that out. `InOrder` also asks that no event lie after "now", which is the browser's clock (graph.js:166). A browser clock behind the database breaks that too (`Spans.ClockSkewUnorders`).
- `SpaceStateFeed.SpaceState.DataReceived`: it promises time order only under the same `InOrder` condition, for the same reasons.
- `Ingestion.IngestKeepsSorted`: its condition `Fresh` holds only when each reply arrives before the next poll, and each topic is configured once. A slower reply breaks time order (`Ingestion.OverlappingRepliesUnsort`), as does a duplicated topic.
- `Graphs.Graph.DataReceived`: it promises sorted buffers only under the same `Fresh` condition, for the same reason.
- `StateQuery` (graph.js:183-188) models the throw of the formatter on a null start as `None`. The throw also skips the `setTimeout` at graph.js:190, so in the code the state feed then stops polling for good. The model has no polling loop, so it does not show this.
