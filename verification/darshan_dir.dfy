/** The per-rank counter aggregator of scripts/parse_darshan_dir.py.

    darshan-parser prints one counter per line, tab separated:
    module, rank, record id, counter name, value, and more fields. The
    aggregator keeps POSIX and LUSTRE lines, sums each allow-listed counter
    per rank, and emits one record per rank with a derived throughput `tag`.
    The parser process itself is not modelled: its output arrives as lines,
    or as `None` when it failed. */
module DarshanDir {
  import opened Wrappers
  import opened Text
  import opened Sums
  import opened Sorting
  import opened Seqs

  /** The allow-listed counters that reach the output, in output order. */
  const OutputCounters: seq<string> := [
    "POSIX_OPENS", "LUSTRE_STRIPE_SIZE", "LUSTRE_STRIPE_WIDTH", "POSIX_FILENOS",
    "POSIX_MEM_ALIGNMENT", "POSIX_FILE_ALIGNMENT", "POSIX_READS", "POSIX_WRITES",
    "POSIX_SEEKS", "POSIX_STATS", "POSIX_BYTES_READ", "POSIX_BYTES_WRITTEN",
    "POSIX_CONSEC_READS", "POSIX_CONSEC_WRITES", "POSIX_SEQ_READS", "POSIX_SEQ_WRITES",
    "POSIX_RW_SWITCHES", "POSIX_MEM_NOT_ALIGNED", "POSIX_FILE_NOT_ALIGNED",
    "POSIX_SIZE_READ_0_100", "POSIX_SIZE_READ_100_1K", "POSIX_SIZE_READ_1K_10K",
    "POSIX_SIZE_READ_100K_1M", "POSIX_SIZE_WRITE_0_100", "POSIX_SIZE_WRITE_100_1K",
    "POSIX_SIZE_WRITE_1K_10K", "POSIX_SIZE_WRITE_10K_100K", "POSIX_SIZE_WRITE_100K_1M",
    "POSIX_STRIDE1_STRIDE", "POSIX_STRIDE2_STRIDE", "POSIX_STRIDE3_STRIDE", "POSIX_STRIDE4_STRIDE",
    "POSIX_STRIDE1_COUNT", "POSIX_STRIDE2_COUNT", "POSIX_STRIDE3_COUNT", "POSIX_STRIDE4_COUNT",
    "POSIX_ACCESS1_ACCESS", "POSIX_ACCESS2_ACCESS", "POSIX_ACCESS3_ACCESS", "POSIX_ACCESS4_ACCESS",
    "POSIX_ACCESS1_COUNT", "POSIX_ACCESS2_COUNT", "POSIX_ACCESS3_COUNT", "POSIX_ACCESS4_COUNT"
  ]

  const MetaTime := "POSIX_F_META_TIME"
  const BytesRead := "POSIX_BYTES_READ"
  const BytesWritten := "POSIX_BYTES_WRITTEN"

  /** The allow-list: the output counters and, last, the meta-time helper
      that only feeds the tag. */
  const TargetCounters: seq<string> := OutputCounters + [MetaTime]

  /** Output column order: rank, the output counters, then the tag. */
  const Columns: seq<string> := ["nprocs"] + OutputCounters + ["tag"]

  lemma MetaTimeNotOutput()
    ensures MetaTime !in OutputCounters
  {
  }

  /** The rank column is not one of the counters. */
  lemma NprocsNotCounter()
    ensures "nprocs" !in OutputCounters
  {
    assert forall k :: 0 <= k < |OutputCounters| ==> |OutputCounters[k]| > 6;
  }

  /** The meta-time helper is the one allow-listed counter that never
      becomes a column. */
  lemma ColumnsOmitMetaTime()
    ensures MetaTime !in Columns
  {
    MetaTimeNotOutput();
    assert Columns == ["nprocs"] + (OutputCounters + ["tag"]);
  }

  /** One output row: column name to value. The rank is stored as a number. */
  type Record = map<string, real>

  /** What one accepted line reports. */
  datatype Sample = Sample(rank: int, counter: string, value: real)

  /** A way of reading one line of parser output. */
  type LineReader = string -> Option<Sample>

  predicate IsModuleLine(line: string) {
    StartsWith(line, "POSIX") || StartsWith(line, "LUSTRE")
  }

  /** The checks shared by both aggregator scripts, given the line (for the
      module prefix) and its tab-separated fields. */
  function ReadFields(line: string, parts: seq<string>, num: NumberSyntax): (r: Option<Sample>)
    ensures r.Some? <==> (IsModuleLine(line) && |parts| >= 5
                          && num.parseInt(parts[1]).Some? && num.parseFloat(parts[4]).Some?)
    ensures r.Some? ==> r.value == Sample(num.parseInt(parts[1]).value, parts[3], num.parseFloat(parts[4]).value)
  {
    if !IsModuleLine(line) then None
    else if |parts| < 5 then None
    else
      match (num.parseInt(parts[1]), num.parseFloat(parts[4]))
      case (Some(rank), Some(value)) => Some(Sample(rank, parts[3], value))
      case _ => None
  }

  /** How parse_darshan_dir.py reads a line: split on tab as it stands. */
  function ParseLine(line: string, num: NumberSyntax): Option<Sample> {
    ReadFields(line, Split(line, '\t'), num)
  }

  function DirReader(num: NumberSyntax): LineReader {
    line => ParseLine(line, num)
  }

  /** Only the first five fields matter: a line written as tab-joined fields
      reads back as rank field 2, name field 4, value field 5, whatever
      follows them. */
  lemma ParseLineOfFields(fields: seq<string>, num: NumberSyntax)
    requires |fields| >= 5
    requires forall k :: 0 <= k < |fields| ==> '\t' !in fields[k]
    requires StartsWith(fields[0], "POSIX") || StartsWith(fields[0], "LUSTRE")
    requires num.parseInt(fields[1]).Some? && num.parseFloat(fields[4]).Some?
    ensures ParseLine(Join(fields, '\t'), num)
         == Some(Sample(num.parseInt(fields[1]).value, fields[3], num.parseFloat(fields[4]).value))
  {
    var line := Join(fields, '\t');
    SplitJoin(fields, '\t');
    assert line == fields[0] + (['\t'] + Join(fields[1..], '\t'));
    if StartsWith(fields[0], "POSIX") {
      PrefixOfConcat(fields[0], ['\t'] + Join(fields[1..], '\t'), "POSIX");
    } else {
      PrefixOfConcat(fields[0], ['\t'] + Join(fields[1..], '\t'), "LUSTRE");
    }
  }

  lemma PrefixOfConcat(a: string, b: string, p: string)
    requires StartsWith(a, p)
    ensures StartsWith(a + b, p)
  {
    assert (a + b)[..|p|] == a[..|p|];
  }

  // ---------------------------------------------------------------------
  // Accumulation per (rank, counter)

  /** `rank_data`: ranks in dict insertion order, and their counter sums. */
  datatype RankSums = RankSums(ranks: seq<int>, sums: map<int, map<string, real>>)

  /** `counters.get(name, 0.0)`, also the default of `defaultdict(float)`. */
  function Get(m: map<string, real>, k: string): (v: real)
    ensures k in m ==> v == m[k]
    ensures k !in m ==> v == 0.0
  {
    if k in m then m[k] else 0.0
  }

  /** `if counter in TARGET_COUNTERS: rank_data[rank][counter] += value`.
      A rank enters the table only here, so a rank whose lines all name
      other counters never gets a record. */
  function Add(acc: RankSums, s: Sample): RankSums {
    if s.counter !in TargetCounters then acc
    else if s.rank in acc.sums then
      acc.(sums := acc.sums[s.rank := acc.sums[s.rank][s.counter := Get(acc.sums[s.rank], s.counter) + s.value]])
    else
      RankSums(acc.ranks + [s.rank], acc.sums[s.rank := map[s.counter := 0.0 + s.value]])
  }

  /** The line loop, one line at a time; lines that do not read are skipped. */
  function Scan(lines: seq<string>, reader: LineReader): RankSums
    decreases |lines|
  {
    if |lines| == 0 then RankSums([], map[])
    else
      var acc := Scan(lines[..|lines| - 1], reader);
      match reader(lines[|lines| - 1])
      case None => acc
      case Some(s) => Add(acc, s)
  }

  // Reference definitions: what a line contributes, and the sum over lines.

  /** The line reads, names an allow-listed counter, and has rank `r`. */
  predicate Feeds(o: Option<Sample>, r: int) {
    o.Some? && o.value.rank == r && o.value.counter in TargetCounters
  }

  function Contribution(o: Option<Sample>, r: int, c: string): real {
    if Feeds(o, r) && o.value.counter == c then o.value.value else 0.0
  }

  function LineTerm(reader: LineReader, r: int, c: string): string -> real {
    line => Contribution(reader(line), r, c)
  }

  /** The sum of the values of all accepted lines for rank `r` and counter
      `c`, in any order. */
  function Total(lines: seq<string>, reader: LineReader, r: int, c: string): real {
    Sum(lines, LineTerm(reader, r, c))
  }

  /** The total over lines does not depend on their order. */
  lemma TotalOrderFree(lines: seq<string>, shuffled: seq<string>, reader: LineReader, r: int, c: string)
    requires multiset(lines) == multiset(shuffled)
    ensures Total(lines, reader, r, c) == Total(shuffled, reader, r, c)
  {
    SumPermutation(lines, shuffled, LineTerm(reader, r, c));
  }

  predicate Accepted(lines: seq<string>, reader: LineReader, r: int) {
    exists i :: 0 <= i < |lines| && Feeds(reader(lines[i]), r)
  }

  /** The accumulator holds exactly the accepted ranks, once each, and for
      each of them the stored sum is the total of its accepted lines. */
  lemma {:induction false} ScanSpec(lines: seq<string>, reader: LineReader)
    ensures Distinct(Scan(lines, reader).ranks)
    ensures forall r :: r in Scan(lines, reader).ranks <==> r in Scan(lines, reader).sums
    ensures forall r :: r in Scan(lines, reader).sums <==> Accepted(lines, reader, r)
    ensures forall r, c :: r in Scan(lines, reader).sums ==>
              Get(Scan(lines, reader).sums[r], c) == Total(lines, reader, r, c)
    decreases |lines|
  {
    if |lines| > 0 {
      var n := |lines| - 1;
      var prefix := lines[..n];
      var last := lines[n];
      assert lines == prefix + [last];
      ScanSpec(prefix, reader);
      var acc := Scan(prefix, reader);
      var o := reader(last);
      TotalSnoc(lines, reader);
      AcceptedSnoc(lines, reader);
      if o.Some? && o.value.counter in TargetCounters && o.value.rank !in acc.sums {
        NewRankZero(prefix, reader, o.value.rank);
      }
    }
  }

  /** The last line adds its contribution to every total. */
  lemma TotalSnoc(lines: seq<string>, reader: LineReader)
    requires |lines| > 0
    ensures forall r, c :: Total(lines, reader, r, c)
              == Total(lines[..|lines| - 1], reader, r, c) + Contribution(reader(lines[|lines| - 1]), r, c)
  {
    var n := |lines| - 1;
    assert lines == lines[..n] + [lines[n]];
    forall r, c
      ensures Total(lines, reader, r, c) == Total(lines[..n], reader, r, c) + Contribution(reader(lines[n]), r, c)
    {
      SumSnoc(lines[..n], lines[n], LineTerm(reader, r, c));
    }
  }

  /** A rank is accepted by the lines when the earlier lines or the last
      one accept it. */
  lemma AcceptedSnoc(lines: seq<string>, reader: LineReader)
    requires |lines| > 0
    ensures forall r :: Accepted(lines, reader, r) <==>
              Accepted(lines[..|lines| - 1], reader, r) || Feeds(reader(lines[|lines| - 1]), r)
  {
    var n := |lines| - 1;
    var prefix := lines[..n];
    forall r
      ensures Accepted(lines, reader, r) <==> Accepted(prefix, reader, r) || Feeds(reader(lines[n]), r)
    {
      if Accepted(lines, reader, r) {
        var i :| 0 <= i < |lines| && Feeds(reader(lines[i]), r);
        if i < n { assert lines[i] == prefix[i]; }
      }
      if Accepted(prefix, reader, r) {
        var i :| 0 <= i < |prefix| && Feeds(reader(prefix[i]), r);
        assert lines[i] == prefix[i];
      }
    }
  }

  /** A rank no line accepts has zero totals. */
  lemma NewRankZero(lines: seq<string>, reader: LineReader, r: int)
    requires !Accepted(lines, reader, r)
    ensures forall c :: Total(lines, reader, r, c) == 0.0
  {
    forall c
      ensures Total(lines, reader, r, c) == 0.0
    {
      forall k | 0 <= k < |lines|
        ensures LineTerm(reader, r, c)(lines[k]) == 0.0
      {
        assert !Feeds(reader(lines[k]), r);
      }
      SumZero(lines, LineTerm(reader, r, c));
    }
  }

  /** Two line sequences that read the same, line by line, accumulate the
      same table, whichever readers were used. */
  lemma {:induction false} ScanSameReadings(xs: seq<string>, r1: LineReader, ys: seq<string>, r2: LineReader)
    requires |xs| == |ys|
    requires forall k :: 0 <= k < |xs| ==> r1(xs[k]) == r2(ys[k])
    ensures Scan(xs, r1) == Scan(ys, r2)
    decreases |xs|
  {
    if |xs| > 0 {
      var n := |xs| - 1;
      ScanSameReadings(xs[..n], r1, ys[..n], r2);
      assert r1(xs[n]) == r2(ys[n]);
    }
  }

  // ---------------------------------------------------------------------
  // Records

  /** The time divisor: meta-time when positive, otherwise the 1e-9 floor. */
  function TimeFloor(t: real): (d: real)
    ensures d > 0.0
    ensures t > 0.0 ==> d == t
  {
    if t <= 0.0 then 0.000000001 else t
  }

  /** `tag = (bytes read + bytes written) / t`: defined for every input,
      and multiplying back by the divisor gives the byte total. */
  function Tag(bytesRead: real, bytesWritten: real, metaTime: real): (tag: real)
    ensures tag * TimeFloor(metaTime) == bytesRead + bytesWritten
  {
    (bytesRead + bytesWritten) / TimeFloor(metaTime)
  }

  /** 100 bytes read, nothing written, no meta-time: tag 1e11. */
  lemma TagFloorExample()
    ensures Tag(100.0, 0.0, 0.0) == 100000000000.0
  {
  }

  /** The row for one rank, given how to look up a counter's value:
      nprocs, every output counter, then the tag; the meta-time helper only
      feeds the tag. */
  function RowFrom(rank: int, value: string -> real): (row: Record)
    ensures row.Keys == set c | c in Columns
    ensures "nprocs" in row && row["nprocs"] == rank as real
  {
    assert "nprocs" in Columns;
    KeyedBy((set c | c in Columns), c => RowCell(rank, value, c))
  }

  /** The value of column `c` in the row for `rank`. */
  function RowCell(rank: int, value: string -> real, c: string): real {
    if c == "nprocs" then rank as real
    else if c == "tag" then Tag(value(BytesRead), value(BytesWritten), value(MetaTime))
    else value(c)
  }

  /** The map from each of `keys` to its value under `f`. */
  function KeyedBy(keys: set<string>, f: string -> real): (m: map<string, real>)
    ensures m.Keys == keys
    ensures forall c :: c in keys ==> m[c] == f(c)
  {
    map c | c in keys :: f(c)
  }

  /** Maps built over the same keys from functions that agree there are
      equal. */
  lemma KeyedByAgrees(keys: set<string>, f: string -> real, g: string -> real)
    requires forall c :: c in keys ==> f(c) == g(c)
    ensures KeyedBy(keys, f) == KeyedBy(keys, g)
  {
    var a, b := KeyedBy(keys, f), KeyedBy(keys, g);
    assert forall c :: c in a ==> a[c] == b[c];
  }

  /** Rows built from value lookups that agree everywhere are equal. */
  lemma RowFromAgrees(rank: int, v: string -> real, w: string -> real)
    requires forall c :: v(c) == w(c)
    ensures RowFrom(rank, v) == RowFrom(rank, w)
  {
    KeyedByAgrees((set c | c in Columns), c => RowCell(rank, v, c), c => RowCell(rank, w, c));
  }

  function Lookup(counters: map<string, real>): string -> real {
    c => Get(counters, c)
  }

  /** The row `parse_file` builds from a rank's accumulated counters, where a
      counter never seen reads 0.0. */
  function MakeRecord(rank: int, counters: map<string, real>): Record {
    RowFrom(rank, Lookup(counters))
  }

  /** The records of one parsed file, in dict insertion order. */
  function Records(lines: seq<string>, reader: LineReader): (recs: seq<Record>)
    ensures |recs| == |Scan(lines, reader).ranks|
  {
    var acc := Scan(lines, reader);
    ScanSpec(lines, reader);
    seq(|acc.ranks|, i requires 0 <= i < |acc.ranks| => MakeRecord(acc.ranks[i], acc.sums[acc.ranks[i]]))
  }

  /** `parse_file`: a parser failure yields no records. */
  function ParseFile(output: Option<seq<string>>, num: NumberSyntax): (recs: seq<Record>)
    ensures output.None? ==> |recs| == 0
    ensures output.Some? ==> forall i :: 0 <= i < |recs| ==>
              recs[i] == ReferenceRecord(output.value, DirReader(num), RankOf(recs[i]))
    ensures output.Some? ==> forall r :: Accepted(output.value, DirReader(num), r) <==>
              exists i :: 0 <= i < |recs| && RankOf(recs[i]) == r
    ensures forall i, j :: 0 <= i < j < |recs| ==> RankOf(recs[i]) != RankOf(recs[j])
  {
    match output
    case None => []
    case Some(lines) =>
      RecordsSpec(lines, DirReader(num));
      Records(lines, DirReader(num))
  }

  function Totals(lines: seq<string>, reader: LineReader, r: int): string -> real {
    c => Total(lines, reader, r, c)
  }

  /** The record a rank should get, written directly from the line totals. */
  function ReferenceRecord(lines: seq<string>, reader: LineReader, r: int): Record {
    RowFrom(r, Totals(lines, reader, r))
  }

  function RankOf(row: Record): int {
    if "nprocs" in row then row["nprocs"].Floor else 0
  }

  /** Record `i` belongs to the `i`-th rank seen and holds its totals. */
  lemma RecordAt(lines: seq<string>, reader: LineReader, i: nat)
    requires i < |Scan(lines, reader).ranks|
    ensures i < |Records(lines, reader)|
    ensures RankOf(Records(lines, reader)[i]) == Scan(lines, reader).ranks[i]
    ensures Records(lines, reader)[i] == ReferenceRecord(lines, reader, Scan(lines, reader).ranks[i])
  {
    var acc := Scan(lines, reader);
    ScanSpec(lines, reader);
    var r := acc.ranks[i];
    assert r in acc.sums;
    assert Records(lines, reader)[i] == MakeRecord(r, acc.sums[r]);
    forall c
      ensures Lookup(acc.sums[r])(c) == Totals(lines, reader, r)(c)
    {
    }
    RowFromAgrees(r, Lookup(acc.sums[r]), Totals(lines, reader, r));
  }

  /** One record per distinct accepted rank, each equal to the record its
      line totals determine; no accepted line means no record. */
  lemma RecordsSpec(lines: seq<string>, reader: LineReader)
    ensures forall i :: 0 <= i < |Records(lines, reader)| ==>
              Records(lines, reader)[i] == ReferenceRecord(lines, reader, RankOf(Records(lines, reader)[i]))
    ensures forall r :: Accepted(lines, reader, r) <==>
              exists i :: 0 <= i < |Records(lines, reader)| && RankOf(Records(lines, reader)[i]) == r
    ensures forall i, j :: 0 <= i < j < |Records(lines, reader)| ==>
              RankOf(Records(lines, reader)[i]) != RankOf(Records(lines, reader)[j])
  {
    var recs := Records(lines, reader);
    var acc := Scan(lines, reader);
    ScanSpec(lines, reader);
    forall i | 0 <= i < |recs|
      ensures RankOf(recs[i]) == acc.ranks[i]
      ensures recs[i] == ReferenceRecord(lines, reader, acc.ranks[i])
    {
      RecordAt(lines, reader, i);
    }
    forall r | Accepted(lines, reader, r)
      ensures exists i :: 0 <= i < |recs| && RankOf(recs[i]) == r
    {
      var i :| 0 <= i < |acc.ranks| && acc.ranks[i] == r;
      assert RankOf(recs[i]) == r;
    }
  }

  lemma {:induction false} ScanEmpty(lines: seq<string>, reader: LineReader)
    requires forall i :: 0 <= i < |lines| ==> reader(lines[i]).None?
    ensures Scan(lines, reader).ranks == []
    decreases |lines|
  {
    if |lines| > 0 {
      ScanEmpty(lines[..|lines| - 1], reader);
    }
  }

  /** Text with no accepted line gives no records. */
  lemma NoAcceptedNoRecords(lines: seq<string>, reader: LineReader)
    requires forall i :: 0 <= i < |lines| ==> reader(lines[i]).None?
    ensures Records(lines, reader) == []
  {
    ScanSpec(lines, reader);
    ScanEmpty(lines, reader);
  }

  // ---------------------------------------------------------------------
  // `main`: every .darshan file under the directory, then sort by rank

  /** One file found by the directory walk, with the parser's output. */
  datatype LogFile = LogFile(name: string, parserOutput: Option<seq<string>>)

  function NprocsKey(row: Record): real {
    if "nprocs" in row then row["nprocs"] else 0.0
  }

  /** `all_records`: the records of every `.darshan` file, in walk order. */
  function AllRecords(files: seq<LogFile>, num: NumberSyntax): seq<Record>
    decreases |files|
  {
    if |files| == 0 then []
    else
      var here := if EndsWith(files[0].name, ".darshan") then ParseFile(files[0].parserOutput, num) else [];
      here + AllRecords(files[1..], num)
  }

  datatype DirOutcome =
    | NoRecords                                   // warns and exits with status 1
    | Written(columns: seq<string>, rows: seq<Record>)

  /** The directory run: status 1 when nothing was found, otherwise the
      records in the fixed column order, sorted by nprocs. */
  function ParseDir(files: seq<LogFile>, num: NumberSyntax): (out: DirOutcome)
    ensures out.NoRecords? <==> |AllRecords(files, num)| == 0
    ensures out.Written? ==> out.columns == Columns
    ensures out.Written? ==> SortedBy(out.rows, NprocsKey)
    ensures out.Written? ==> multiset(out.rows) == multiset(AllRecords(files, num))
  {
    var recs := AllRecords(files, num);
    if |recs| == 0 then NoRecords else Written(Columns, SortBy(recs, NprocsKey))
  }
}
