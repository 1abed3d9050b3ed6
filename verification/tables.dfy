/** A pandas DataFrame as the analysis scripts use it: an ordered list of
    column names and a list of rows, each row mapping column names to cells.
    A cell that the CSV left empty (pandas' NaN) is `Missing`; a row without
    an entry for a column reads as `Missing` too. */
module Tables {
  import opened Seqs

  datatype Value = Num(x: real) | Text(s: string) | Missing

  type Row = map<string, Value>

  datatype Frame = Frame(columns: seq<string>, rows: seq<Row>)

  /** `row[col]` */
  function Cell(row: Row, col: string): (v: Value)
    ensures col in row ==> v == row[col]
    ensures col !in row ==> v == Missing
  {
    if col in row then row[col] else Missing
  }

  /** `value != 0` in pandas: true for every non-number and for NaN. */
  predicate NonZero(v: Value) {
    !(v.Num? && v.x == 0.0)
  }

  /** Some row holds `a` in column `col` before the first row that holds
      `b` there. */
  predicate SeenBefore(rows: seq<Row>, col: string, a: Value, b: Value) {
    forall q :: 0 <= q < |rows| && Cell(rows[q], col) == b ==>
      exists p :: 0 <= p < q && Cell(rows[p], col) == a
  }

  /** The `unique()` values of a column, in order of first appearance. */
  function ColumnValues(rows: seq<Row>, col: string): (vs: seq<Value>)
    ensures Distinct(vs)
    ensures forall v :: v in vs <==> exists i :: 0 <= i < |rows| && Cell(rows[i], col) == v
    ensures forall i, j :: 0 <= i < j < |vs| ==> SeenBefore(rows, col, vs[i], vs[j])
  {
    var column := seq(|rows|, i requires 0 <= i < |rows| => Cell(rows[i], col));
    var vs := Unique(column);
    assert forall i, j :: 0 <= i < j < |vs| ==> SeenBefore(rows, col, vs[i], vs[j]) by {
      forall i, j | 0 <= i < j < |vs|
        ensures SeenBefore(rows, col, vs[i], vs[j])
      {
        ColumnBefore(rows, col, column, vs[i], vs[j]);
      }
    }
    assert forall v :: v in column <==> exists i :: 0 <= i < |rows| && Cell(rows[i], col) == v by {
      forall v | v in column
        ensures exists i :: 0 <= i < |rows| && Cell(rows[i], col) == v
      {
        var i :| 0 <= i < |column| && column[i] == v;
        assert Cell(rows[i], col) == v;
      }
      forall v | exists i :: 0 <= i < |rows| && Cell(rows[i], col) == v
        ensures v in column
      {
        var i :| 0 <= i < |rows| && Cell(rows[i], col) == v;
        assert column[i] == v;
      }
    }
    vs
  }

  lemma ColumnBefore(rows: seq<Row>, col: string, column: seq<Value>, a: Value, b: Value)
    requires |column| == |rows| && forall i :: 0 <= i < |rows| ==> column[i] == Cell(rows[i], col)
    requires Before(column, a, b)
    ensures SeenBefore(rows, col, a, b)
  {
    forall q | 0 <= q < |rows| && Cell(rows[q], col) == b
      ensures exists p :: 0 <= p < q && Cell(rows[p], col) == a
    {
      assert column[q] == b;
      assert a in column[..q];
      var p :| 0 <= p < q && column[..q][p] == a;
      assert Cell(rows[p], col) == a;
    }
  }
}
