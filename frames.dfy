/** Values shared by the fetch, reconciliation and publish steps: a price row
    with a day number, a ticker and a close that may be missing. */
module Frames {

  /** A close that may be missing (pandas NaN is None). */
  datatype Option<V> = None | Some(value: V)

  /** A ticker symbol, such as "PLTR". */
  type Symbol = string

  /** One row of a price frame: columns date, symbol and close. Dates are day
      numbers; prices are opaque, the pipeline never computes with them. */
  datatype Row<V> = Row(date: int, symbol: Symbol, close: Option<V>)

  /** At most one row per (date, symbol) pair. */
  predicate UniqueKeys<V>(rows: seq<Row<V>>)
  {
    forall i, j :: 0 <= i < j < |rows| && rows[i].date == rows[j].date ==> rows[i].symbol != rows[j].symbol
  }

  /** No symbol occurs twice in the list. */
  predicate Distinct(symbols: seq<Symbol>)
  {
    forall i, j :: 0 <= i < j < |symbols| ==> symbols[i] != symbols[j]
  }
}
