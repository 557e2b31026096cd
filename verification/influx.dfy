/**
 * The shape of an InfluxDB query reply as the chart code sees it: the two
 * arguments `(error, json)` of the `d3.json` callback.
 */
module Influx {

  import opened Wrappers

  /**
   * An instant in milliseconds since the epoch. The ISO-8601 parser of the
   * reply's time column is taken to be the identity: rows already carry
   * instants.
   */
  type Instant = int

  /** One row `[time, value]` of a series, its time already parsed. */
  datatype Row<V> = Row(time: Instant, value: V)

  /** A series: its measurement name and its rows, in the database's order. */
  datatype Series<V> = Series(name: string, values: seq<Row<V>>)

  /**
   * One statement's result. The chart code only ever reads `series[0]`, so a
   * result keeps that first series, or `None` when the field is absent
   * (an empty data set).
   */
  datatype StatementResult<V> = StatementResult(series: Option<Series<V>>)

  /**
   * The callback's arguments: a transport or parse error, or a JSON body
   * whose `results` field may be missing.
   */
  datatype Reply<V> =
    | TransportError
    | Body(results: Option<seq<StatementResult<V>>>)
}
