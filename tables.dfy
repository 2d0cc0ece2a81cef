/**
 * The tabular artifacts the dashboard reads (decision_df and fairness_df), as values:
 * an ordered list of column names and one map from column name to cell per row.
 */
module Tables {

  /** A scalar cell of a loaded table: a number or a piece of text. */
  datatype Cell = Num(x: real) | Text(s: string)

  type Row = map<string, Cell>

  datatype Table = Table(columns: seq<string>, rows: seq<Row>)

  /** Every row has exactly one cell per column, as in a data frame. */
  predicate Rectangular(t: Table)
  {
    forall i :: 0 <= i < |t.rows| ==> t.rows[i].Keys == set c | c in t.columns
  }

  /** Every row carries a number in column `col`. */
  predicate NumericColumn(t: Table, col: string)
  {
    forall i :: 0 <= i < |t.rows| ==> col in t.rows[i] && t.rows[i][col].Num?
  }

  /** The numbers of a numeric column, top to bottom. */
  function Column(t: Table, col: string): (xs: seq<real>)
    requires NumericColumn(t, col)
    ensures |xs| == |t.rows|
    ensures forall i :: 0 <= i < |t.rows| ==> xs[i] == t.rows[i][col].x
  {
    seq(|t.rows|, i requires 0 <= i < |t.rows| => t.rows[i][col].x)
  }
}
