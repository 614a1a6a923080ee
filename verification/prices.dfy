/** The shared data model: an aligned price table with one column per instrument. */
module Prices {

  /** Trading dates are abstract integers; only their order matters. */
  type Date = int

  datatype Option<+T> = None | Some(value: T)

  datatype Result<+T, +E> = Ok(value: T) | Err(error: E)

  /** One instrument: its name (the table's column label) and its closing prices, row by row. */
  datatype Column = Column(name: string, prices: seq<real>)

  /** A price table: the common date index and the columns aligned with it. */
  datatype Table = Table(dates: seq<Date>, columns: seq<Column>)

  predicate StrictlyIncreasing(dates: seq<Date>)
  {
    forall i, j :: 0 <= i < j < |dates| ==> dates[i] < dates[j]
  }

  /** Every column has one price per date. */
  predicate Aligned(columns: seq<Column>, dates: seq<Date>)
  {
    forall k :: 0 <= k < |columns| ==> |columns[k].prices| == |dates|
  }

  predicate DistinctNames(columns: seq<Column>)
  {
    forall k, l :: 0 <= k < l < |columns| ==> columns[k].name != columns[l].name
  }

  /**
   * The table the core receives: a strictly increasing date index, complete
   * columns (incomplete ones are dropped before the core runs) and one column
   * per instrument name.
   */
  predicate ValidTable(t: Table)
  {
    StrictlyIncreasing(t.dates) && Aligned(t.columns, t.dates) && DistinctNames(t.columns)
  }
}
