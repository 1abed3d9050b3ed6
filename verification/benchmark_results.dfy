/** scripts/analyze_benchmark_results.py: the suite analysis. The counter
    CSV files of a results directory are picked by the pattern
    `*_counters_*.csv`; each file's name gives a configuration name and a
    benchmark type, which are stamped on every row of the file together with
    the file name; the stamped tables are concatenated; and a summary table
    holds, for every (configuration, type) pair that has rows, the means of
    six metrics over those rows. */
module BenchmarkResults {
  import opened Wrappers
  import opened Text
  import opened Seqs
  import opened Sums
  import Tables
  import Cartesian

  const CountersMark := "_counters_"
  const SplitMark := "_SPLIT_"

  // ---------------------------------------------------------------------
  // File names

  /** `glob("*_counters_*.csv")` on one directory entry: not a dot-file, and
      the name is some text, `_counters_`, some text, `.csv`. */
  predicate GlobMatch(name: string) {
    !StartsWith(name, ".") && EndsWith(name, ".csv") && Contains(name[..|name| - 4], CountersMark)
  }

  /** Every name of the pattern's shape is picked. */
  lemma GlobOfParts(a: string, b: string)
    requires !StartsWith(a + CountersMark, ".")
    ensures GlobMatch(a + CountersMark + b + ".csv")
  {
    var name := a + CountersMark + b + ".csv";
    assert name[|name| - 4..] == ".csv";
    assert name[..|name| - 4] == a + CountersMark + b;
    assert (a + CountersMark + b)[|a|..|a| + |CountersMark|] == CountersMark;
    ContainsAt(a + CountersMark + b, CountersMark, |a|);
    assert name[..|a + CountersMark|] == (a + CountersMark)[..|a + CountersMark|];
  }

  /** Every picked name has the pattern's shape. */
  lemma PartsOfGlob(name: string) returns (a: string, b: string)
    requires GlobMatch(name)
    ensures name == a + CountersMark + b + ".csv"
  {
    var body := name[..|name| - 4];
    var i := ContainsWitness(body, CountersMark);
    a, b := body[..i], body[i + |CountersMark|..];
    assert body == a + CountersMark + b;
    assert name == body + ".csv";
  }

  /** `filename.replace('_counters_', '_SPLIT_').split('_SPLIT_')[0]` */
  function NamePrefix(name: string): string {
    BeforeFirst(Replace(name, CountersMark, SplitMark), SplitMark)
  }

  lemma SplitMarkUnderscores(k: nat)
    requires 0 < k < |SplitMark| && SplitMark[k] == '_'
    ensures k == 6
  {
  }

  /** An occurrence of `_SPLIT_` that starts inside the text before a
      `_counters_` mark already occurs in the name itself. */
  lemma EarlySplitMark(p: string, tail: string, rest: string, i: nat)
    requires i < |p| && StartsWith(tail, CountersMark)
    ensures StartsWith((p + SplitMark + rest)[i..], SplitMark) ==> Contains(p + tail, SplitMark)
  {
    var x := p + SplitMark + rest;
    var s := p + tail;
    if StartsWith(x[i..], SplitMark) {
      if i + |SplitMark| <= |p| {
        assert s[i..i + |SplitMark|] == x[i..i + |SplitMark|];
        ContainsAt(s, SplitMark, i);
      } else {
        var k := |p| - i;
        assert x[i..][k] == x[|p|] == '_';
        assert SplitMark[k] == '_';
        SplitMarkUnderscores(k);
        assert s[i..i + 7] == p[i..] + [tail[0]];
        assert x[i..i + 7] == p[i..] + [SplitMark[0]];
        ContainsAt(s, SplitMark, i);
      }
    }
  }

  lemma EarlySplitMarkAtEnd(p: string, i: nat)
    requires i < |p|
    ensures StartsWith(p[i..], SplitMark) ==> Contains(p, SplitMark)
  {
    if StartsWith(p[i..], SplitMark) {
      assert p[i..i + |SplitMark|] == p[i..][..|SplitMark|];
      ContainsAt(p, SplitMark, i);
    }
  }

  /** For a name without `_SPLIT_`, the prefix is the text before the first
      `_counters_`. */
  lemma NamePrefixIsBeforeCounters(name: string)
    requires !Contains(name, SplitMark)
    ensures NamePrefix(name) == BeforeFirst(name, CountersMark)
  {
    var p := BeforeFirst(name, CountersMark);
    var k := |p|;
    assert name[..k] == p;
    forall i | 0 <= i < k
      ensures !StartsWith(name[i..], CountersMark)
    {
      BeforeFirstIsFirst(name, CountersMark, i);
    }
    ReplaceSkip(name, CountersMark, SplitMark, k);
    if k == |name| {
      assert name[k..] == "";
      var x := Replace(name, CountersMark, SplitMark);
      assert x == p;
      forall i | 0 <= i < k
        ensures !StartsWith(x[i..], SplitMark)
      {
        EarlySplitMarkAtEnd(p, i);
      }
      BeforeFirstAt(x, SplitMark, k);
      assert x[..k] == p;
    } else {
      var tail := name[k..];
      assert StartsWith(tail, CountersMark);
      var rest := Replace(tail[|CountersMark|..], CountersMark, SplitMark);
      assert Replace(tail, CountersMark, SplitMark) == SplitMark + rest;
      var x := Replace(name, CountersMark, SplitMark);
      assert x == p + SplitMark + rest;
      assert name == p + tail;
      forall i | 0 <= i < k
        ensures !StartsWith(x[i..], SplitMark)
      {
        EarlySplitMark(p, tail, rest, i);
      }
      assert x[k..][..|SplitMark|] == SplitMark;
      BeforeFirstAt(x, SplitMark, k);
      assert x[..k] == p;
    }
  }

  /** Where a file's rows come from: configuration name and benchmark type. */
  datatype Origin = Origin(config: string, btype: string)

  /** Lines 42-49: the prefix split on '_'; the first part names the
      configuration and the second the type, when it is one of the two
      known types. */
  function ParseName(name: string): (o: Origin)
    ensures o.btype in {"posix", "hdf5", "unknown"}
  {
    var parts := Split(NamePrefix(name), '_');
    if |parts| >= 2 then Origin(parts[0], if parts[1] in {"posix", "hdf5"} then parts[1] else "unknown")
    else Origin("unknown", "unknown")
  }

  lemma SplitOne(s: string, sep: char)
    requires sep !in s
    ensures Split(s, sep) == [s]
  {
    SplitPrefix(s, "", sep);
    assert s + "" == s;
  }

  /** A name `<config>_<type><rest>_counters_...` with neither part holding
      '_' gives back its configuration and, if known, its type. */
  lemma ParseNameOfParts(name: string, config: string, btype: string, rest: string)
    requires !Contains(name, SplitMark)
    requires BeforeFirst(name, CountersMark) == config + "_" + btype + rest
    requires '_' !in config && '_' !in btype && (rest == "" || rest[0] == '_')
    ensures ParseName(name) == Origin(config, if btype in {"posix", "hdf5"} then btype else "unknown")
  {
    NamePrefixIsBeforeCounters(name);
    SplitParts(config, btype, rest);
  }

  lemma SplitParts(config: string, btype: string, rest: string)
    requires '_' !in config && '_' !in btype && (rest == "" || rest[0] == '_')
    ensures var parts := Split(config + "_" + btype + rest, '_');
            |parts| >= 2 && parts[0] == config && parts[1] == btype
  {
    var tail := "_" + btype + rest;
    assert config + "_" + btype + rest == config + tail;
    SplitPrefix(config, tail, '_');
    assert tail[1..] == btype + rest;
    var after := Split(btype + rest, '_');
    assert Split(tail, '_') == [""] + after;
    SplitPrefix(btype, rest, '_');
    assert Split(rest, '_')[0] == "" by {
      if rest != "" {
        assert rest[0] == '_';
      }
    }
    assert after[0] == btype;
    var st := Split(tail, '_');
    assert st[0] == "" && st[1..] == after;
    assert config + st[0] == config;
  }

  /** A prefix without '_' is a single part: both fields are "unknown". */
  lemma ParseNameSinglePart(name: string)
    requires '_' !in NamePrefix(name)
    ensures ParseName(name) == Origin("unknown", "unknown")
  {
    SplitOne(NamePrefix(name), '_');
  }

  // ---------------------------------------------------------------------
  // Stamping and concatenation

  const StampColumns: seq<string> := ["config_name", "benchmark_type", "source_file"]

  /** A directory entry: its name, and its table when `read_csv` succeeds. */
  datatype CsvFile = CsvFile(name: string, table: Option<Tables.Frame>)

  /** `cols` followed by the names of `more` it lacks, in order: the columns
      after assigning new ones, and the columns of an outer concatenation. */
  function Union(cols: seq<string>, more: seq<string>): (r: seq<string>)
    ensures forall c :: c in r <==> c in cols || c in more
    ensures |cols| <= |r| && r[..|cols|] == cols
    ensures Distinct(cols) ==> Distinct(r)
    decreases |more|
  {
    if |more| == 0 then cols
    else if more[0] in cols then Union(cols, more[1..])
    else
      var next := cols + [more[0]];
      assert Distinct(cols) ==> Distinct(next) by {
        if Distinct(cols) {
          DistinctAppend(cols, [more[0]]);
        }
      }
      var r := Union(next, more[1..]);
      assert r[..|cols|] == r[..|next|][..|cols|];
      r
  }

  /** Lines 51-53 on one row. */
  function Stamp(row: Tables.Row, o: Origin, name: string): (r: Tables.Row)
    ensures r.Keys == row.Keys + {"config_name", "benchmark_type", "source_file"}
    ensures r["config_name"] == Tables.Text(o.config) && r["benchmark_type"] == Tables.Text(o.btype)
    ensures r["source_file"] == Tables.Text(name)
    ensures forall c :: c in row && c !in StampColumns ==> r[c] == row[c]
  {
    row["config_name" := Tables.Text(o.config)]["benchmark_type" := Tables.Text(o.btype)]["source_file" := Tables.Text(name)]
  }

  function StampFrame(f: Tables.Frame, name: string): (r: Tables.Frame)
    ensures |r.rows| == |f.rows|
    ensures forall i :: 0 <= i < |r.rows| ==> r.rows[i] == Stamp(f.rows[i], ParseName(name), name)
  {
    Tables.Frame(Union(f.columns, StampColumns),
                 seq(|f.rows|, i requires 0 <= i < |f.rows| => Stamp(f.rows[i], ParseName(name), name)))
  }

  /** `pd.concat(..., ignore_index=True)`: rows one after another, columns
      the union in order of first appearance. */
  function Concat(frames: seq<Tables.Frame>): (r: Tables.Frame)
    decreases |frames|
  {
    if |frames| == 0 then Tables.Frame([], [])
    else
      var last := frames[|frames| - 1];
      var init := Concat(frames[..|frames| - 1]);
      Tables.Frame(Union(init.columns, last.columns), init.rows + last.rows)
  }

  /** The number of rows of all the frames. */
  function RowCount(frames: seq<Tables.Frame>): nat
    decreases |frames|
  {
    if |frames| == 0 then 0 else |frames[0].rows| + RowCount(frames[1..])
  }

  lemma {:induction false} RowCountSnoc(frames: seq<Tables.Frame>, f: Tables.Frame)
    ensures RowCount(frames + [f]) == RowCount(frames) + |f.rows|
    decreases |frames|
  {
    if |frames| > 0 {
      assert (frames + [f])[1..] == frames[1..] + [f];
      RowCountSnoc(frames[1..], f);
    }
  }

  /** The concatenation has as many rows as the frames together, each row
      one of some frame's, and every frame's column. */
  lemma {:induction false} ConcatSpec(frames: seq<Tables.Frame>)
    ensures |Concat(frames).rows| == RowCount(frames)
    ensures forall r :: r in Concat(frames).rows <==> exists k :: 0 <= k < |frames| && r in frames[k].rows
    ensures forall k, c :: 0 <= k < |frames| && c in frames[k].columns ==> c in Concat(frames).columns
    decreases |frames|
  {
    if |frames| > 0 {
      var init := frames[..|frames| - 1];
      var last := frames[|frames| - 1];
      ConcatSpec(init);
      assert frames == init + [last];
      RowCountSnoc(init, last);
      forall r
        ensures r in Concat(frames).rows <==> exists k :: 0 <= k < |frames| && r in frames[k].rows
      {
        if r in Concat(frames).rows && r !in last.rows {
          var k :| 0 <= k < |init| && r in init[k].rows;
          assert frames[k] == init[k];
        }
        if exists k :: 0 <= k < |frames| && r in frames[k].rows {
          var k :| 0 <= k < |frames| && r in frames[k].rows;
          if k < |init| {
            assert init[k] == frames[k];
          }
        }
      }
      forall k, c | 0 <= k < |frames| && c in frames[k].columns
        ensures c in Concat(frames).columns
      {
        if k < |init| {
          assert init[k] == frames[k];
        }
      }
    }
  }

  // ---------------------------------------------------------------------
  // Loading

  /** The picked entries, in listing order. */
  function Picked(entries: seq<CsvFile>): (r: seq<CsvFile>)
    ensures forall e :: e in r <==> e in entries && GlobMatch(e.name)
  {
    Filter(entries, (e: CsvFile) => GlobMatch(e.name))
  }

  /** The stamped tables of the picked files that load; a file that fails to
      load is reported and skipped. */
  function Loaded(picked: seq<CsvFile>): (r: seq<Tables.Frame>)
    ensures |r| <= |picked|
    ensures forall f :: f in r <==> exists e :: e in picked && e.table.Some? && f == StampFrame(e.table.value, e.name)
    ensures |r| == 0 <==> forall e :: e in picked ==> e.table.None?
    decreases |picked|
  {
    if |picked| == 0 then []
    else
      var e := picked[0];
      var rest := Loaded(picked[1..]);
      assert forall x :: x in picked <==> x == e || x in picked[1..];
      match e.table
      case None => rest
      case Some(t) => [StampFrame(t, e.name)] + rest
  }

  // ---------------------------------------------------------------------
  // The summary table

  const Metrics: seq<string> := [
    "nprocs", "POSIX_OPENS", "POSIX_READS", "POSIX_WRITES", "POSIX_BYTES_READ", "POSIX_BYTES_WRITTEN"
  ]

  datatype SummaryRow = SummaryRow(config: Tables.Value, btype: Tables.Value, means: seq<Tables.Value>)

  predicate InGroup(row: Tables.Row, config: Tables.Value, btype: Tables.Value) {
    Tables.Cell(row, "config_name") == config && Tables.Cell(row, "benchmark_type") == btype
  }

  /** `df[(df['config_name'] == config) & (df['benchmark_type'] == bench_type)]` */
  function Subset(rows: seq<Tables.Row>, config: Tables.Value, btype: Tables.Value): (r: seq<Tables.Row>)
    ensures forall row :: row in r <==> row in rows && InGroup(row, config, btype)
  {
    Filter(rows, (row: Tables.Row) => InGroup(row, config, btype))
  }

  /** The numbers in a column, skipping empty (NaN) cells. */
  function Numbers(rows: seq<Tables.Row>, col: string): (xs: seq<real>)
    ensures |xs| <= |rows|
    decreases |rows|
  {
    if |rows| == 0 then []
    else
      var rest := Numbers(rows[1..], col);
      match Tables.Cell(rows[0], col)
      case Num(x) => [x] + rest
      case _ => rest
  }

  function Id(x: real): real { x }

  /** `Series.mean()`: NaN when there is no number, else the average. */
  function Mean(rows: seq<Tables.Row>, col: string): (v: Tables.Value)
    ensures v.Missing? <==> |Numbers(rows, col)| == 0
    ensures v.Num? ==> v.x * (|Numbers(rows, col)| as real) == Sum(Numbers(rows, col), Id)
  {
    var xs := Numbers(rows, col);
    if |xs| == 0 then Tables.Missing else Tables.Num(Sum(xs, Id) / (|xs| as real))
  }

  lemma {:induction false} SumWithin(xs: seq<real>, lo: real, hi: real)
    requires forall k :: 0 <= k < |xs| ==> lo <= xs[k] <= hi
    ensures (|xs| as real) * lo <= Sum(xs, Id) <= (|xs| as real) * hi
    decreases |xs|
  {
    if |xs| > 0 {
      SumWithin(xs[1..], lo, hi);
      assert (|xs| as real) * lo == lo + ((|xs| - 1) as real) * lo;
      assert (|xs| as real) * hi == hi + ((|xs| - 1) as real) * hi;
    }
  }

  /** A mean lies between the least and the greatest number averaged. */
  lemma MeanWithin(rows: seq<Tables.Row>, col: string, lo: real, hi: real)
    requires forall k :: 0 <= k < |Numbers(rows, col)| ==> lo <= Numbers(rows, col)[k] <= hi
    requires Mean(rows, col).Num?
    ensures lo <= Mean(rows, col).x <= hi
  {
    var xs := Numbers(rows, col);
    var n := |xs| as real;
    SumWithin(xs, lo, hi);
    var m := Mean(rows, col).x;
    var total := Sum(xs, Id);
    assert m * n == total;
    assert n * lo <= n * m <= n * hi;
    DivideOut(lo, m, n);
    DivideOut(m, hi, n);
  }

  /** A positive factor can be divided out of an inequality. */
  lemma DivideOut(a: real, b: real, n: real)
    requires n > 0.0 && n * a <= n * b
    ensures a <= b
  {
    assert n * b - n * a == n * (b - a);
  }

  /** A metric column: its mean over the group when the table has it,
      else 0. */
  function Metric(columns: seq<string>, group: seq<Tables.Row>, col: string): Tables.Value {
    if col in columns then Mean(group, col) else Tables.Num(0.0)
  }

  /** Every (configuration, type) pair, configuration-major, as the two
      nested loops visit them. */
  function Pairs(rows: seq<Tables.Row>): seq<seq<Tables.Value>> {
    Cartesian.Product([Tables.ColumnValues(rows, "config_name"), Tables.ColumnValues(rows, "benchmark_type")])
  }

  function GroupOf(rows: seq<Tables.Row>, pair: seq<Tables.Value>): seq<Tables.Row>
    requires |pair| == 2
  {
    Subset(rows, pair[0], pair[1])
  }

  /** A pair gets a summary row when some row falls in its group. */
  function KeepPair(rows: seq<Tables.Row>): seq<Tables.Value> -> bool {
    (pair: seq<Tables.Value>) => |pair| == 2 && |GroupOf(rows, pair)| > 0
  }

  /** Lines 156-173: one summary row per pair whose subset is not empty. */
  function Summary(frame: Tables.Frame): (summary: seq<SummaryRow>)
  {
    var rows := frame.rows;
    var kept := Filter(Pairs(rows), KeepPair(rows));
    seq(|kept|, i requires 0 <= i < |kept| =>
      assert kept[i] in kept;
      SummaryRow(kept[i][0], kept[i][1],
                 seq(|Metrics|, k requires 0 <= k < |Metrics| => Metric(frame.columns, GroupOf(rows, kept[i]), Metrics[k]))))
  }

  function Kept(rows: seq<Tables.Row>): seq<seq<Tables.Value>> {
    Filter(Pairs(rows), KeepPair(rows))
  }

  /** Summary row `i` is built from the `i`-th kept pair. */
  predicate FromPair(frame: Tables.Frame, pair: seq<Tables.Value>, s: SummaryRow) {
    |pair| == 2 && |GroupOf(frame.rows, pair)| > 0
    && s.config == pair[0] && s.btype == pair[1]
    && s.means == seq(|Metrics|, k requires 0 <= k < |Metrics| => Metric(frame.columns, GroupOf(frame.rows, pair), Metrics[k]))
  }

  /** The facts about the kept pairs the summary lemmas share. */
  lemma KeptPairs(frame: Tables.Frame)
    ensures |Summary(frame)| == |Kept(frame.rows)| && Distinct(Kept(frame.rows))
    ensures forall i :: 0 <= i < |Kept(frame.rows)| ==> FromPair(frame, Kept(frame.rows)[i], Summary(frame)[i])
  {
    var rows := frame.rows;
    var kept := Kept(rows);
    Cartesian.ProductDistinct([Tables.ColumnValues(rows, "config_name"), Tables.ColumnValues(rows, "benchmark_type")]);
    forall i | 0 <= i < |kept|
      ensures |kept[i]| == 2 && |GroupOf(rows, kept[i])| > 0
    {
      assert kept[i] in kept;
    }
  }

  /** Each summary row holds the metric means over a non-empty group. */
  lemma SummaryRowsAreMeans(frame: Tables.Frame)
    ensures var summary := Summary(frame);
            forall i :: 0 <= i < |summary| ==>
              |Subset(frame.rows, summary[i].config, summary[i].btype)| > 0
              && |summary[i].means| == |Metrics|
              && forall k :: 0 <= k < |Metrics| ==>
                   summary[i].means[k] == Metric(frame.columns, Subset(frame.rows, summary[i].config, summary[i].btype), Metrics[k])
  {
    KeptPairs(frame);
  }

  /** No (configuration, type) pair has two summary rows. */
  lemma SummaryPairsDistinct(frame: Tables.Frame)
    ensures var summary := Summary(frame);
            forall i, j :: 0 <= i < j < |summary| ==>
              (summary[i].config, summary[i].btype) != (summary[j].config, summary[j].btype)
  {
    KeptPairs(frame);
    var rows := frame.rows;
    var kept := Kept(rows);
    var summary := Summary(frame);
    forall i, j | 0 <= i < j < |summary|
      ensures (summary[i].config, summary[i].btype) != (summary[j].config, summary[j].btype)
    {
      assert kept[i] != kept[j];
      assert kept[i] == [kept[i][0], kept[i][1]] && kept[j] == [kept[j][0], kept[j][1]];
    }
  }

  /** The summary follows the two nested loops: configurations in the order
      the table first shows them and, within one configuration, the types
      in that order. */
  lemma SummaryOrder(frame: Tables.Frame, m: nat, n: nat)
    requires m < n < |Summary(frame)|
    ensures var s := Summary(frame);
            if s[m].config == s[n].config
            then Tables.SeenBefore(frame.rows, "benchmark_type", s[m].btype, s[n].btype)
            else Tables.SeenBefore(frame.rows, "config_name", s[m].config, s[n].config)
  {
    KeptPairs(frame);
    var rows := frame.rows;
    var configs := Tables.ColumnValues(rows, "config_name");
    var types := Tables.ColumnValues(rows, "benchmark_type");
    var kept := Kept(rows);
    var s := Summary(frame);
    assert FromPair(frame, kept[m], s[m]) && FromPair(frame, kept[n], s[n]);
    var p, q := FilterIndices(Pairs(rows), KeepPair(rows), m, n);
    var i, j, i', j' := Cartesian.PairOrder(configs, types, p, q);
    assert s[m].config == configs[i] && s[m].btype == types[j];
    assert s[n].config == configs[i'] && s[n].btype == types[j'];
    if i < i' {
      assert configs[i] != configs[i'];
    }
  }

  /** A pair has a summary row exactly when some row has that configuration
      and that type. */
  lemma SummaryCoversGroups(frame: Tables.Frame, config: Tables.Value, btype: Tables.Value)
    ensures var summary := Summary(frame);
            (exists i :: 0 <= i < |summary| && summary[i].config == config && summary[i].btype == btype)
            <==> (exists row :: row in frame.rows && InGroup(row, config, btype))
  {
    if exists row :: row in frame.rows && InGroup(row, config, btype) {
      var row :| row in frame.rows && InGroup(row, config, btype);
      GroupHasSummaryRow(frame, row, config, btype);
    }
    if exists i :: 0 <= i < |Summary(frame)| && Summary(frame)[i].config == config && Summary(frame)[i].btype == btype {
      var i :| 0 <= i < |Summary(frame)| && Summary(frame)[i].config == config && Summary(frame)[i].btype == btype;
      SummaryRowHasGroup(frame, i);
    }
  }

  lemma GroupHasSummaryRow(frame: Tables.Frame, row: Tables.Row, config: Tables.Value, btype: Tables.Value)
    requires row in frame.rows && InGroup(row, config, btype)
    ensures exists i :: 0 <= i < |Summary(frame)| && Summary(frame)[i].config == config && Summary(frame)[i].btype == btype
  {
    KeptPairs(frame);
    var rows := frame.rows;
    var configs := Tables.ColumnValues(rows, "config_name");
    var types := Tables.ColumnValues(rows, "benchmark_type");
    var kept := Kept(rows);
    var r :| 0 <= r < |rows| && rows[r] == row;
    assert config in configs && btype in types;
    Cartesian.ProductMembers([configs, types], [config, btype]);
    assert row in GroupOf(rows, [config, btype]);
    assert [config, btype] in kept;
    var i :| 0 <= i < |kept| && kept[i] == [config, btype];
    assert FromPair(frame, kept[i], Summary(frame)[i]);
  }

  lemma SummaryRowHasGroup(frame: Tables.Frame, i: nat)
    requires i < |Summary(frame)|
    ensures exists row :: row in frame.rows && InGroup(row, Summary(frame)[i].config, Summary(frame)[i].btype)
  {
    KeptPairs(frame);
    var kept := Kept(frame.rows);
    assert FromPair(frame, kept[i], Summary(frame)[i]);
    assert kept[i] == [Summary(frame)[i].config, Summary(frame)[i].btype];
    var g := GroupOf(frame.rows, kept[i]);
    assert g[0] in g;
  }

  // ---------------------------------------------------------------------
  // The whole analysis

  datatype Outcome =
    | NoCounterFiles
    | NoValidData
    | Analyzed(combined: Tables.Frame, summary: seq<SummaryRow>)

  /** `analyze_benchmark_results` on a directory listing. */
  function Analyze(entries: seq<CsvFile>): (out: Outcome)
    ensures out.NoCounterFiles? <==> forall e :: e in entries ==> !GlobMatch(e.name)
    ensures out.NoValidData? <==>
              (exists e :: e in entries && GlobMatch(e.name))
              && forall e :: e in entries && GlobMatch(e.name) ==> e.table.None?
    ensures out.Analyzed? ==> out.combined == Concat(Loaded(Picked(entries))) && out.summary == Summary(out.combined)
  {
    var picked := Picked(entries);
    if |picked| == 0 then
      assert forall e :: e in entries ==> !GlobMatch(e.name);
      NoCounterFiles
    else
      assert picked[0] in picked;
      var frames := Loaded(picked);
      if |frames| == 0 then NoValidData
      else
        assert frames[0] in frames;
        var combined := Concat(frames);
        Analyzed(combined, Summary(combined))
  }

  /** Every combined row is a row of a picked, loaded file, stamped with
      that file's origin and name; and the combined table has as many rows
      as the loaded files together. */
  lemma AnalyzedRows(entries: seq<CsvFile>)
    requires Analyze(entries).Analyzed?
    ensures var combined := Analyze(entries).combined;
            |combined.rows| == RowCount(Loaded(Picked(entries)))
            && forall r :: r in combined.rows ==>
                 exists e, j :: e in entries && GlobMatch(e.name) && e.table.Some?
                   && 0 <= j < |e.table.value.rows|
                   && r == Stamp(e.table.value.rows[j], ParseName(e.name), e.name)
  {
    var frames := Loaded(Picked(entries));
    ConcatSpec(frames);
    forall r | r in Concat(frames).rows
      ensures exists e, j :: e in entries && GlobMatch(e.name) && e.table.Some?
                && 0 <= j < |e.table.value.rows|
                && r == Stamp(e.table.value.rows[j], ParseName(e.name), e.name)
    {
      var k :| 0 <= k < |frames| && r in frames[k].rows;
      assert frames[k] in frames;
      var e :| e in Picked(entries) && e.table.Some? && frames[k] == StampFrame(e.table.value, e.name);
      var j :| 0 <= j < |frames[k].rows| && frames[k].rows[j] == r;
    }
  }

  /** `main`: one argument, naming a directory that exists. */
  datatype Run = Usage | DirectoryNotFound | Ran(outcome: Outcome)

  function Cli(argv: seq<string>, dirExists: bool, entries: seq<CsvFile>): (r: Run)
    ensures r.Usage? <==> |argv| != 2
    ensures r.DirectoryNotFound? <==> |argv| == 2 && !dirExists
    ensures r.Ran? ==> r.outcome == Analyze(entries)
  {
    if |argv| != 2 then Usage
    else if !dirExists then DirectoryNotFound
    else Ran(Analyze(entries))
  }
}
