/** scripts/test_script.py: ranks the rows of the sampled configuration
    table by how rare their parameter values are. For each of twelve
    parameter columns the script counts how often every value occurs; a
    row scores the sum, over those columns, of one over the count of its
    own value, so a row made of rare values scores high. The rows are then
    sorted by score, highest first, and the first ten are shown. */
module Diversity {
  import opened Wrappers
  import opened Seqs
  import Tables
  import Sorting

  const Columns: seq<string> := [
    "api", "transferSize", "blockSize", "segmentCount", "numTasks",
    "filePerProc", "useStridedDatatype", "setAlignment", "useO_DIRECT", "fsync",
    "LUSTRE_STRIPE_SIZE", "LUSTRE_STRIPE_WIDTH"
  ]

  const ScoreColumn: string := "diversity_score"
  const TopCount: nat := 10

  /** The columns of the printed ranking. */
  const ShownColumns: seq<string> := ["config_id", "testFile", ScoreColumn] + Columns

  // ---------------------------------------------------------------------
  // Value frequencies

  /** How many rows hold `v` in column `col`. */
  function Freq(rows: seq<Tables.Row>, col: string, v: Tables.Value): (n: nat)
    ensures n <= |rows|
  {
    Count(rows, (r: Tables.Row) => Tables.Cell(r, col) == v)
  }

  /** A value some row holds occurs at least once. */
  lemma FreqPositive(rows: seq<Tables.Row>, col: string, row: Tables.Row)
    requires row in rows
    ensures Freq(rows, col, Tables.Cell(row, col)) >= 1
  {
    CountExtremes(rows, (r: Tables.Row) => Tables.Cell(r, col) == Tables.Cell(row, col));
    var k :| 0 <= k < |rows| && rows[k] == row;
  }

  /** `Counter(df[col])`: every value of the column, with its count. */
  function Frequencies(rows: seq<Tables.Row>, col: string): (m: map<Tables.Value, nat>)
    ensures forall v :: v in m <==> exists k :: 0 <= k < |rows| && Tables.Cell(rows[k], col) == v
    ensures forall v :: v in m ==> m[v] == Freq(rows, col, v) && m[v] >= 1
  {
    var m := map v | v in Tables.ColumnValues(rows, col) :: Freq(rows, col, v);
    assert forall v :: v in m ==> m[v] >= 1 by {
      forall v | v in m
        ensures m[v] >= 1
      {
        var k :| 0 <= k < |rows| && Tables.Cell(rows[k], col) == v;
        FreqPositive(rows, col, rows[k]);
      }
    }
    m
  }

  /** The counts of the values `vs`, added up. */
  function FreqTotal(rows: seq<Tables.Row>, col: string, vs: seq<Tables.Value>): nat
    decreases |vs|
  {
    if |vs| == 0 then 0 else FreqTotal(rows, col, vs[..|vs| - 1]) + Freq(rows, col, vs[|vs| - 1])
  }

  /** One more row adds one to the total exactly when its value is among
      the (distinct) values `vs`. */
  lemma {:induction false} FreqTotalSnoc(rows: seq<Tables.Row>, x: Tables.Row, col: string, vs: seq<Tables.Value>)
    requires Distinct(vs)
    ensures FreqTotal(rows + [x], col, vs) == FreqTotal(rows, col, vs) + (if Tables.Cell(x, col) in vs then 1 else 0)
    decreases |vs|
  {
    if |vs| > 0 {
      var init := vs[..|vs| - 1];
      var v := vs[|vs| - 1];
      assert vs == init + [v];
      assert Distinct(init);
      assert v !in init;
      FreqTotalSnoc(rows, x, col, init);
      CountSnoc(rows, x, (r: Tables.Row) => Tables.Cell(r, col) == v);
    }
  }

  /** For distinct values, the total of their counts is the number of rows
      holding any of them. */
  lemma {:induction false} FreqTotalCounts(rows: seq<Tables.Row>, col: string, vs: seq<Tables.Value>)
    requires Distinct(vs)
    ensures FreqTotal(rows, col, vs) == Count(rows, (r: Tables.Row) => Tables.Cell(r, col) in vs)
    decreases |rows|
  {
    if |rows| == 0 {
      FreqTotalZero(col, vs);
    } else {
      var init := rows[..|rows| - 1];
      var x := rows[|rows| - 1];
      assert rows == init + [x];
      FreqTotalCounts(init, col, vs);
      FreqTotalSnoc(init, x, col, vs);
      CountSnoc(init, x, (r: Tables.Row) => Tables.Cell(r, col) in vs);
    }
  }

  lemma {:induction false} FreqTotalZero(col: string, vs: seq<Tables.Value>)
    ensures FreqTotal([], col, vs) == 0
    decreases |vs|
  {
    if |vs| > 0 {
      FreqTotalZero(col, vs[..|vs| - 1]);
    }
  }

  /** In every column the counts of the distinct values add up to the
      number of rows. */
  lemma FrequenciesSum(rows: seq<Tables.Row>, col: string)
    ensures FreqTotal(rows, col, Tables.ColumnValues(rows, col)) == |rows|
  {
    var vs := Tables.ColumnValues(rows, col);
    var holds := (r: Tables.Row) => Tables.Cell(r, col) in vs;
    FreqTotalCounts(rows, col, vs);
    CountExtremes(rows, holds);
    forall k | 0 <= k < |rows|
      ensures holds(rows[k])
    {
      assert Tables.Cell(rows[k], col) in vs;
    }
  }

  // ---------------------------------------------------------------------
  // The score

  /** `1 / n` for a count of at least one. */
  function Inverse(n: nat): (r: real)
    requires n >= 1
    ensures 0.0 < r <= 1.0 && r * (n as real) == 1.0
    ensures r == 1.0 <==> n == 1
  {
    1.0 / (n as real)
  }

  /** `compute_diversity` restricted to the columns `cols`. */
  function ScoreOver(rows: seq<Tables.Row>, row: Tables.Row, cols: seq<string>): (s: real)
    requires row in rows
    ensures 0.0 <= s <= |cols| as real
    ensures |cols| > 0 ==> s > 0.0
    decreases |cols|
  {
    if |cols| == 0 then 0.0
    else
      var col := cols[|cols| - 1];
      FreqPositive(rows, col, row);
      ScoreOver(rows, row, cols[..|cols| - 1]) + Inverse(Freq(rows, col, Tables.Cell(row, col)))
  }

  /** `compute_diversity(row)`: a score in (0, 12]. */
  function Score(rows: seq<Tables.Row>, row: Tables.Row): (s: real)
    requires row in rows
    ensures 0.0 < s <= 12.0
  {
    ScoreOver(rows, row, Columns)
  }

  /** The top score is reached exactly by a row whose every value is unique
      in its column. */
  lemma {:induction false} ScoreOverMax(rows: seq<Tables.Row>, row: Tables.Row, cols: seq<string>)
    requires row in rows
    ensures ScoreOver(rows, row, cols) == |cols| as real <==>
              forall k :: 0 <= k < |cols| ==> Freq(rows, cols[k], Tables.Cell(row, cols[k])) == 1
    decreases |cols|
  {
    if |cols| > 0 {
      var init := cols[..|cols| - 1];
      var col := cols[|cols| - 1];
      assert forall k :: 0 <= k < |init| ==> init[k] == cols[k];
      ScoreOverMax(rows, row, init);
      FreqPositive(rows, col, row);
    }
  }

  lemma ScoreMax(rows: seq<Tables.Row>, row: Tables.Row)
    requires row in rows
    ensures Score(rows, row) == 12.0 <==>
              forall k :: 0 <= k < |Columns| ==> Freq(rows, Columns[k], Tables.Cell(row, Columns[k])) == 1
  {
    ScoreOverMax(rows, row, Columns);
  }

  // ---------------------------------------------------------------------
  // Ranking

  datatype Scored = Scored(row: Tables.Row, score: real)

  /** `df.apply(compute_diversity, axis=1)`, kept beside each row. */
  function ScoreAll(rows: seq<Tables.Row>): (r: seq<Scored>)
    ensures |r| == |rows|
    ensures forall i :: 0 <= i < |r| ==> r[i].row == rows[i] && r[i].score == Score(rows, rows[i])
    ensures forall i :: 0 <= i < |r| ==> 0.0 < r[i].score <= 12.0
  {
    seq(|rows|, i requires 0 <= i < |rows| => Scored(rows[i], Score(rows, rows[i])))
  }

  /** `sort_values(by="diversity_score", ascending=False)` */
  function Ranked(scored: seq<Scored>): (r: seq<Scored>)
    ensures multiset(r) == multiset(scored) && |r| == |scored|
    ensures forall i, j :: 0 <= i < j < |r| ==> r[i].score >= r[j].score
  {
    var r := Sorting.SortBy(scored, (s: Scored) => -s.score);
    assert forall i, j :: 0 <= i < j < |r| ==> -r[i].score <= -r[j].score;
    r
  }

  /** `.head(10)` */
  function Top(ranked: seq<Scored>): (t: seq<Scored>)
    ensures |t| == if |ranked| < TopCount then |ranked| else TopCount
    ensures t <= ranked
  {
    if |ranked| < TopCount then ranked else ranked[..TopCount]
  }

  /** Every row shown scores at least as high as every row left out. */
  lemma TopIsBest(scored: seq<Scored>)
    ensures var ranked := Ranked(scored);
            var top := Top(ranked);
            forall i, j :: 0 <= i < |top| <= j < |ranked| ==> top[i].score >= ranked[j].score
  {
  }

  /** Every row of the table appears in the ranking exactly as often as in
      the table. */
  lemma RankingKeepsRows(rows: seq<Tables.Row>)
    ensures |Ranked(ScoreAll(rows))| == |rows|
    ensures forall s :: s in Ranked(ScoreAll(rows)) ==> s.row in rows && s.score == Score(rows, s.row)
  {
    var scored := ScoreAll(rows);
    forall s | s in Ranked(scored)
      ensures s.row in rows && s.score == Score(rows, s.row)
    {
      assert s in multiset(scored);
      var i :| 0 <= i < |scored| && scored[i] == s;
    }
  }

  // ---------------------------------------------------------------------
  // The script

  /** The first name in `needed` the table lacks. */
  function FirstMissing(needed: seq<string>, columns: seq<string>): (r: Option<string>)
    ensures r.None? <==> forall k :: 0 <= k < |needed| ==> needed[k] in columns
    ensures r.Some? ==> r.value !in columns
    ensures r.Some? ==> exists k :: (0 <= k < |needed| && needed[k] == r.value
                                     && forall m :: 0 <= m < k ==> needed[m] in columns)
    decreases |needed|
  {
    if |needed| == 0 then None
    else if needed[0] !in columns then Some(needed[0])
    else
      var r := FirstMissing(needed[1..], columns);
      assert forall k :: 1 <= k < |needed| ==> needed[1..][k - 1] == needed[k];
      r
  }

  /** The columns printed beside the score, looked up only at the end. */
  const IdColumns: seq<string> := ["config_id", "testFile"]

  /** How the script ends:
      - a `KeyError` for the first missing scored column, raised while
        counting frequencies;
      - on a table with no rows, a failure to store the scores: `apply` then
        calls the scorer on an all-NaN row, whose lookups in the empty
        counters divide by zero, gives up and returns the frame itself,
        which cannot be stored as the one score column;
      - a `KeyError` for a missing id column, raised while printing;
      - or the ten best rows. */
  datatype Outcome = MissingColumn(name: string) | NoRowsToScore | Shown(top: seq<Scored>)

  function Run(frame: Tables.Frame): (o: Outcome)
    ensures o.MissingColumn? ==> o.name !in frame.columns
    ensures (exists c :: c in Columns && c !in frame.columns) <==> o.MissingColumn? && o.name in Columns
    ensures o.NoRowsToScore? <==> (forall c :: c in Columns ==> c in frame.columns) && |frame.rows| == 0
    ensures o.MissingColumn? && o.name !in Columns <==>
              (forall c :: c in Columns ==> c in frame.columns) && |frame.rows| > 0
              && exists c :: c in IdColumns && c !in frame.columns
    ensures o.Shown? ==> |frame.rows| > 0 && o.top == Top(Ranked(ScoreAll(frame.rows)))
  {
    match FirstMissing(Columns, frame.columns)
    case Some(c) =>
      assert c in Columns;
      MissingColumn(c)
    case None =>
      assert forall c :: c in Columns ==> c in frame.columns;
      if |frame.rows| == 0 then NoRowsToScore
      else
        match FirstMissing(IdColumns, frame.columns)
        case Some(c) =>
          assert c in IdColumns && c !in Columns;
          MissingColumn(c)
        case None =>
          assert forall c :: c in IdColumns ==> c in frame.columns;
          Shown(Top(Ranked(ScoreAll(frame.rows))))
  }
}
