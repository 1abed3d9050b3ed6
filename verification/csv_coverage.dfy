/** scripts/analyze_csv_data.py: how many rows of a counter table carry the
    I/O counters. The POSIX and Lustre columns are picked by name prefix;
    for every POSIX column the script counts the rows whose cell is not
    zero (pandas' `!= 0`, true for an empty cell as well); a row is
    complete when every required counter the table has is non-zero. The
    plots draw from the first fifteen "key" POSIX columns and a bar per
    required counter, labelled without its "POSIX_" prefix. */
module CsvCoverage {
  import opened Wrappers
  import opened Text
  import opened Seqs
  import Tables

  const PosixPrefix: string := "POSIX_"
  const LustrePrefix: string := "LUSTRE_"

  /** `[col for col in df.columns if col.startswith(prefix)]` */
  function WithPrefix(columns: seq<string>, prefix: string): (r: seq<string>)
    ensures |r| <= |columns|
    ensures forall c :: c in r <==> c in columns && StartsWith(c, prefix)
    ensures Distinct(columns) ==> Distinct(r)
  {
    Filter(columns, (c: string) => StartsWith(c, prefix))
  }

  /** The selection keeps column order: it distributes over a split of the
      column list. */
  lemma WithPrefixOrder(a: seq<string>, b: seq<string>, prefix: string)
    ensures WithPrefix(a + b, prefix) == WithPrefix(a, prefix) + WithPrefix(b, prefix)
  {
    FilterAppend(a, b, (c: string) => StartsWith(c, prefix));
  }

  /** No column is both a POSIX and a Lustre counter. */
  lemma PrefixesDisjoint(columns: seq<string>)
    ensures forall c :: c in WithPrefix(columns, PosixPrefix) ==> c !in WithPrefix(columns, LustrePrefix)
  {
    forall c | c in WithPrefix(columns, PosixPrefix)
      ensures c !in WithPrefix(columns, LustrePrefix)
    {
      assert c[0] == 'P';
    }
  }

  // ---------------------------------------------------------------------
  // Coverage of one column

  /** `(df[col] != 0).sum()` */
  function NonZeroCount(rows: seq<Tables.Row>, col: string): (n: nat)
    ensures n <= |rows|
    ensures n == 0 <==> forall k :: 0 <= k < |rows| ==> !Tables.NonZero(Tables.Cell(rows[k], col))
    ensures n == |rows| <==> forall k :: 0 <= k < |rows| ==> Tables.NonZero(Tables.Cell(rows[k], col))
  {
    CountExtremes(rows, (r: Tables.Row) => Tables.NonZero(Tables.Cell(r, col)));
    Count(rows, (r: Tables.Row) => Tables.NonZero(Tables.Cell(r, col)))
  }

  /** `(n / total) * 100` */
  function Percent(n: nat, total: nat): (p: real)
    requires n <= total && total > 0
    ensures p * (total as real) == 100.0 * (n as real)
    ensures 0.0 <= p <= 100.0
    ensures p == 100.0 <==> n == total
  {
    var q := (n as real) / (total as real);
    assert q * (total as real) == n as real;
    q * 100.0
  }

  datatype Coverage = Coverage(counter: string, nonZero: nat, percent: real)

  /** The entry for `counter`: its non-zero count among `rows`, and that
      count as a share of all rows. */
  predicate Covers(c: Coverage, rows: seq<Tables.Row>) {
    && |rows| > 0
    && c.nonZero == NonZeroCount(rows, c.counter)
    && 0.0 <= c.percent <= 100.0
    && c.percent * (|rows| as real) == 100.0 * (c.nonZero as real)
  }

  function CoverageEntry(rows: seq<Tables.Row>, counter: string): (c: Coverage)
    requires |rows| > 0
    ensures c.counter == counter && Covers(c, rows)
  {
    var n := NonZeroCount(rows, counter);
    Coverage(counter, n, Percent(n, |rows|))
  }

  /** The `posix_coverage` entries, in column order. */
  function CoverageOf(frame: Tables.Frame): (r: seq<Coverage>)
    requires |frame.rows| > 0
    ensures |r| == |WithPrefix(frame.columns, PosixPrefix)|
    ensures forall i :: 0 <= i < |r| ==> r[i].counter == WithPrefix(frame.columns, PosixPrefix)[i]
    ensures forall i :: 0 <= i < |r| ==> Covers(r[i], frame.rows)
  {
    var posix := WithPrefix(frame.columns, PosixPrefix);
    seq(|posix|, i requires 0 <= i < |posix| => CoverageEntry(frame.rows, posix[i]))
  }

  // ---------------------------------------------------------------------
  // Complete rows

  /** POSIX_OPENS, POSIX_READS, POSIX_WRITES, POSIX_BYTES_READ,
      POSIX_BYTES_WRITTEN, POSIX_SEEKS and POSIX_STATS. */
  const Required: seq<string> := [
    PosixPrefix + "OPENS", PosixPrefix + "READS", PosixPrefix + "WRITES", PosixPrefix + "BYTES_READ",
    PosixPrefix + "BYTES_WRITTEN", PosixPrefix + "SEEKS", PosixPrefix + "STATS"
  ]

  /** `all(row[c] != 0 for c in required_counters if c in df.columns)` */
  predicate Complete(row: Tables.Row, columns: seq<string>) {
    forall k :: 0 <= k < |Required| && Required[k] in columns ==> Tables.NonZero(Tables.Cell(row, Required[k]))
  }

  /** A required counter the table lacks imposes nothing; one it has must be
      non-zero. With none of them present every row is complete. */
  lemma CompleteMeans(row: Tables.Row, columns: seq<string>)
    ensures Complete(row, columns) <==>
              forall c :: c in columns && c in Required ==> Tables.NonZero(Tables.Cell(row, c))
    ensures (forall c :: c in Required ==> c !in columns) ==> Complete(row, columns)
  {
  }

  /** The loop that counts complete rows. */
  method CompleteEntries(frame: Tables.Frame) returns (n: nat)
    ensures n == Count(frame.rows, (r: Tables.Row) => Complete(r, frame.columns))
    ensures n <= |frame.rows|
  {
    var complete := (r: Tables.Row) => Complete(r, frame.columns);
    n := 0;
    var i := 0;
    while i < |frame.rows|
      invariant 0 <= i <= |frame.rows|
      invariant n == Count(frame.rows[..i], complete)
    {
      assert frame.rows[..i + 1] == frame.rows[..i] + [frame.rows[i]];
      CountSnoc(frame.rows[..i], frame.rows[i], complete);
      if Complete(frame.rows[i], frame.columns) {
        n := n + 1;
      }
      i := i + 1;
    }
    assert frame.rows[..i] == frame.rows;
  }

  /** A complete row is non-zero in every present required column, so no
      such column covers fewer rows than there are complete ones. */
  lemma CompleteBelowCoverage(frame: Tables.Frame, k: nat)
    requires k < |Required| && Required[k] in frame.columns
    ensures Count(frame.rows, (r: Tables.Row) => Complete(r, frame.columns)) <= NonZeroCount(frame.rows, Required[k])
  {
    CountMonotone(frame.rows, (r: Tables.Row) => Complete(r, frame.columns),
                  (r: Tables.Row) => Tables.NonZero(Tables.Cell(r, Required[k])));
  }

  // ---------------------------------------------------------------------
  // Missing cells

  /** `df.isnull().sum().sum()` over the given columns. */
  function MissingCells(rows: seq<Tables.Row>, columns: seq<string>): (n: nat)
    ensures n <= |columns| * |rows|
    ensures n == 0 <==> forall j, k :: 0 <= j < |columns| && 0 <= k < |rows| ==> !Tables.Cell(rows[k], columns[j]).Missing?
    decreases |columns|
  {
    if |columns| == 0 then 0
    else
      var init := columns[..|columns| - 1];
      var last := columns[|columns| - 1];
      assert forall j :: 0 <= j < |init| ==> init[j] == columns[j];
      var here := Count(rows, (r: Tables.Row) => Tables.Cell(r, last).Missing?);
      CountExtremes(rows, (r: Tables.Row) => Tables.Cell(r, last).Missing?);
      assert |columns| * |rows| == |init| * |rows| + |rows|;
      MissingCells(rows, init) + here
  }

  // ---------------------------------------------------------------------
  // What the plots draw

  const KeyParts: seq<string> := ["OPENS", "READS", "WRITES", "BYTES", "SEEKS", "STATS"]
  const HeatmapLimit: nat := 15

  /** `any(x in col for x in [...])` */
  predicate IsKey(c: string) {
    exists k :: 0 <= k < |KeyParts| && Contains(c, KeyParts[k])
  }

  /** `[col for col in posix if any(...)][:15]` */
  function KeyPosixCounters(posix: seq<string>): (r: seq<string>)
    ensures |r| == if |Filter(posix, IsKey)| <= HeatmapLimit then |Filter(posix, IsKey)| else HeatmapLimit
    ensures forall c :: c in r ==> c in posix && IsKey(c)
    ensures r <= Filter(posix, IsKey)
    ensures |Filter(posix, IsKey)| <= HeatmapLimit ==> forall c :: c in posix && IsKey(c) ==> c in r
  {
    var keys := Filter(posix, IsKey);
    if |keys| <= HeatmapLimit then keys else keys[..HeatmapLimit]
  }

  /** The required counters the table has, in list order. */
  function BarCounters(columns: seq<string>): (r: seq<string>)
    ensures |r| <= |Required|
    ensures forall c :: c in r <==> c in Required && c in columns
  {
    Filter(Required, (c: string) => c in columns)
  }

  /** `counter.replace('POSIX_', '')` */
  function Label(counter: string): string {
    Replace(counter, PosixPrefix, "")
  }

  const Labels: seq<string> := ["OPENS", "READS", "WRITES", "BYTES_READ", "BYTES_WRITTEN", "SEEKS", "STATS"]

  /** Each required counter is "POSIX_" followed by its label. */
  lemma RequiredLabels()
    ensures forall k :: 0 <= k < |Required| ==> Required[k] == PosixPrefix + Labels[k] && Label(Required[k]) == Labels[k]
  {
    forall k | 0 <= k < |Required|
      ensures Required[k] == PosixPrefix + Labels[k] && Label(Required[k]) == Labels[k]
    {
      if Labels[k] == "OPENS" {
        ShortNoContains(Labels[k], PosixPrefix);
      } else {
        NoCharNoContains(Labels[k], PosixPrefix);
      }
      ReplaceLeading(PosixPrefix, Labels[k], "");
    }
  }

  /** The bar of one present required counter. */
  function Bar(rows: seq<Tables.Row>, counter: string): (b: (string, real))
    requires |rows| > 0 && counter in Required
    ensures PosixPrefix + b.0 == counter && b.0 in Labels
    ensures b.1 == CoverageEntry(rows, counter).percent
  {
    RequiredLabels();
    (Label(counter), Percent(NonZeroCount(rows, counter), |rows|))
  }

  /** The bar chart: one bar per present required counter, labelled by the
      counter name without its prefix, at that counter's coverage. */
  function Bars(frame: Tables.Frame): (r: seq<(string, real)>)
    requires |frame.rows| > 0
    ensures |r| == |BarCounters(frame.columns)|
    ensures forall i :: 0 <= i < |r| ==> PosixPrefix + r[i].0 == BarCounters(frame.columns)[i] && r[i].0 in Labels
    ensures forall i :: 0 <= i < |r| ==> r[i].1 == CoverageEntry(frame.rows, BarCounters(frame.columns)[i]).percent
  {
    var present := BarCounters(frame.columns);
    seq(|present|, i requires 0 <= i < |present| => Bar(frame.rows, present[i]))
  }

  /** Every bar shows the same percentage the coverage table holds for its
      counter. */
  lemma BarsMatchCoverage(frame: Tables.Frame, i: nat)
    requires |frame.rows| > 0 && i < |Bars(frame)|
    ensures exists j :: 0 <= j < |CoverageOf(frame)|
              && CoverageOf(frame)[j].counter == PosixPrefix + Bars(frame)[i].0
              && CoverageOf(frame)[j].percent == Bars(frame)[i].1
  {
    var counter := BarCounters(frame.columns)[i];
    assert counter in BarCounters(frame.columns);
    RequiredLabels();
    var k :| 0 <= k < |Required| && Required[k] == counter;
    assert StartsWith(counter, PosixPrefix);
    var posix := WithPrefix(frame.columns, PosixPrefix);
    assert counter in posix;
    var j :| 0 <= j < |posix| && posix[j] == counter;
    assert CoverageOf(frame)[j].counter == counter;
  }

  // ---------------------------------------------------------------------
  // The whole analysis

  datatype Report = Report(
    totalEntries: nat, completeEntries: nat, completePercent: real,
    coverage: seq<Coverage>, missingValues: nat)

  /** The table failed to load (the function returns None), it has no rows
      (`complete_entries / len(df)` divides by zero), or a report. */
  datatype Outcome = LoadFailed | ZeroDivision | Analyzed(report: Report)

  /** The report on a table with rows. */
  function ReportOf(frame: Tables.Frame): (report: Report)
    requires |frame.rows| > 0
    ensures report.totalEntries == |frame.rows|
    ensures report.completeEntries == Count(frame.rows, (r: Tables.Row) => Complete(r, frame.columns))
    ensures report.completeEntries <= report.totalEntries
    ensures report.completePercent == Percent(report.completeEntries, report.totalEntries)
    ensures report.coverage == CoverageOf(frame)
    ensures report.missingValues == MissingCells(frame.rows, frame.columns)
  {
    var complete := Count(frame.rows, (r: Tables.Row) => Complete(r, frame.columns));
    var share := Percent(complete, |frame.rows|);
    Report(|frame.rows|, complete, share, CoverageOf(frame), MissingCells(frame.rows, frame.columns))
  }

  function Analyze(table: Option<Tables.Frame>): (o: Outcome)
    ensures o.LoadFailed? <==> table.None?
    ensures o.ZeroDivision? <==> table.Some? && |table.value.rows| == 0
    ensures o.Analyzed? ==> o.report == ReportOf(table.value)
  {
    match table
    case None => LoadFailed
    case Some(frame) => if |frame.rows| == 0 then ZeroDivision else Analyzed(ReportOf(frame))
  }

  datatype Run = Usage | FileNotFound | Ran(outcome: Outcome)

  /** `main`: exactly one argument, naming a file that exists. */
  function Cli(argv: seq<string>, fileExists: bool, table: Option<Tables.Frame>): (r: Run)
    ensures r.Usage? <==> |argv| != 2
    ensures r.FileNotFound? <==> |argv| == 2 && !fileExists
    ensures r.Ran? ==> r.outcome == Analyze(table)
  {
    if |argv| != 2 then Usage
    else if !fileExists then FileNotFound
    else Ran(Analyze(table))
  }
}
