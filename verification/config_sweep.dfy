/** scripts/ior_configurations_generator.py: the full-factorial sweep of IOR
    parameters. Every combination of the twelve value lists becomes one CSV
    row, numbered from 1 in enumeration order, with the number zero-padded
    to the width of the total count and a test file name derived from it.
    Values are kept as the text the CSV writer puts in a cell: the integer
    levels appear as their decimal numerals. */
module ConfigSweep {
  import opened Text
  import opened Seqs
  import opened Cartesian

  const Apis: seq<string> := ["POSIX", "HDF5"]
  const TransferSizes: seq<string> := ["4K", "64K", "1M"]
  const BlockSizes: seq<string> := ["1M", "4M", "16M"]
  const SegmentCounts: seq<string> := ["1", "16", "256"]
  const NumTasks: seq<string> := ["4", "16", "64"]
  const FilePerProc: seq<string> := ["0", "1"]
  const UseStrided: seq<string> := ["0", "1"]
  const SetAlignments: seq<string> := ["4K", "1M"]
  const UseODirect: seq<string> := ["0", "1"]
  const Fsync: seq<string> := ["0", "1"]
  const StripeSizes: seq<string> := ["1M", "4M"]
  const StripeWidths: seq<string> := ["1", "4"]

  /** The lists in `itertools.product` order, which is also column order. */
  const Levels: seq<seq<string>> := [
    Apis, TransferSizes, BlockSizes, SegmentCounts, NumTasks, FilePerProc,
    UseStrided, SetAlignments, UseODirect, Fsync, StripeSizes, StripeWidths
  ]

  const Header: seq<string> := [
    "config_id", "testFile",
    "api", "transferSize", "blockSize", "segmentCount", "numTasks",
    "filePerProc", "useStridedDatatype", "setAlignment",
    "useO_DIRECT", "fsync",
    "LUSTRE_STRIPE_SIZE", "LUSTRE_STRIPE_WIDTH"
  ]

  /** `pad_width = len(str(total))` */
  function PadWidth<T>(levels: seq<seq<T>>): nat {
    |NatToString(Weight(levels))|
  }

  /** `str(config_id).zfill(pad_width)` */
  function ConfigId(k: nat, width: nat): string {
    ZFill(NatToString(k), width)
  }

  /** The row for the `n`-th combination (counting from 0): its id is n + 1. */
  function ConfigRow(levels: seq<seq<string>>, n: nat): (row: seq<string>)
    requires n < |Product(levels)|
  {
    var id := ConfigId(n + 1, PadWidth(levels));
    [id, "test" + id] + Product(levels)[n]
  }

  /** The whole CSV: header, then one row per combination. */
  function Sweep(levels: seq<seq<string>>): (table: seq<seq<string>>)
    ensures |table| == 1 + |Product(levels)| == 1 + Weight(levels) && table[0] == Header
    ensures forall n :: 0 <= n < |Product(levels)| ==> table[n + 1] == ConfigRow(levels, n)
  {
    ProductLength(levels);
    var rows := seq(|Product(levels)|, n requires 0 <= n < |Product(levels)| => ConfigRow(levels, n));
    assert forall n :: 0 <= n < |rows| ==> ([Header] + rows)[n + 1] == rows[n];
    [Header] + rows
  }

  /** An id up to the total has exactly the padding width, reads back as
      its number, and so no two rows share an id. */
  lemma ConfigIdSpec(k: nat, total: nat)
    requires k <= total
    ensures |ConfigId(k, |NatToString(total)|)| == |NatToString(total)|
    ensures AllDigits(ConfigId(k, |NatToString(total)|))
    ensures DigitsValue(ConfigId(k, |NatToString(total)|)) == k
  {
    NatToStringMonotone(k, total);
    ZFillRoundTrip(k, |NatToString(total)|);
  }

  /** Row `n + 1` of the table: the zero-padded id of `n + 1`, the test file
      named after it, then the combination `n` encodes. */
  lemma RowSpec(levels: seq<seq<string>>, n: nat)
    requires n < Weight(levels)
    ensures var row := Sweep(levels)[n + 1];
            |row| == 2 + |levels|
            && |row[0]| == PadWidth(levels) && AllDigits(row[0]) && DigitsValue(row[0]) == n + 1
            && row[1] == "test" + row[0]
            && row[2..] == Decode(levels, n)
  {
    ProductLength(levels);
    ProductIndex(levels, n);
    ConfigIdSpec(n + 1, Weight(levels));
    var row := Sweep(levels)[n + 1];
    assert row == ConfigRow(levels, n);
    assert row[2..] == Product(levels)[n];
  }

  /** Different rows have different ids. */
  lemma IdsDistinct(levels: seq<seq<string>>, m: nat, n: nat)
    requires m < n < Weight(levels)
    ensures Sweep(levels)[m + 1][0] != Sweep(levels)[n + 1][0]
  {
    RowSpec(levels, m);
    RowSpec(levels, n);
  }

  /** The parameter cells of the rows, in order, are the enumeration of
      combinations: exactly the sequences taking one value from each list,
      and, with no value repeated in a list, each of them in one row only. */
  lemma RowsCoverCombinations(levels: seq<seq<string>>, c: seq<string>)
    requires forall k :: 0 <= k < |levels| ==> Distinct(levels[k])
    ensures forall n :: 0 <= n < |Product(levels)| ==> Sweep(levels)[n + 1][2..] == Product(levels)[n]
    ensures c in Product(levels) <==> (|c| == |levels| && forall k :: 0 <= k < |c| ==> c[k] in levels[k])
    ensures Distinct(Product(levels))
  {
    AllSweepParams(levels);
    ProductMembers(levels, c);
    ProductDistinct(levels);
  }

  lemma AllSweepParams(levels: seq<seq<string>>)
    ensures forall n :: 0 <= n < |Product(levels)| ==> Sweep(levels)[n + 1][2..] == Product(levels)[n]
  {
    forall n | 0 <= n < |Product(levels)|
      ensures Sweep(levels)[n + 1][2..] == Product(levels)[n]
    {
      SweepParams(levels, n);
    }
  }

  lemma SweepParams(levels: seq<seq<string>>, n: nat)
    requires n < |Product(levels)|
    ensures Sweep(levels)[n + 1][2..] == Product(levels)[n]
  {
    assert Sweep(levels)[n + 1] == ConfigRow(levels, n);
  }

  // ---------------------------------------------------------------------
  // The concrete sweep

  lemma LevelsDistinct()
    ensures forall k :: 0 <= k < |Levels| ==> Distinct(Levels[k])
  {
  }

  /** 2 * 3^4 * 2^7 combinations. */
  lemma TotalIs()
    ensures Weight(Levels) == 20736
  {
    assert Weight(Levels[11..]) == 2;
    assert Weight(Levels[10..]) == 4;
    assert Weight(Levels[9..]) == 8;
    assert Weight(Levels[8..]) == 16;
    assert Weight(Levels[7..]) == 32;
    assert Weight(Levels[6..]) == 64;
    assert Weight(Levels[5..]) == 128;
    assert Weight(Levels[4..]) == 384;
    assert Weight(Levels[3..]) == 1152;
    assert Weight(Levels[2..]) == 3456;
    assert Weight(Levels[1..]) == 10368;
  }

  /** The ids are five digits wide: 00001 to 20736. */
  lemma PadWidthIs()
    ensures PadWidth(Levels) == 5
  {
    TotalIs();
    assert |NatToString(2)| == 1;
    assert |NatToString(20)| == 2;
    assert |NatToString(207)| == 3;
    assert |NatToString(2073)| == 4;
    assert |NatToString(20736)| == 5;
  }

  /** The generated file: a header of 14 names, then 20736 rows of 14 cells. */
  lemma SweepShape()
    ensures |Sweep(Levels)| == 20737 && |Header| == 2 + |Levels|
    ensures forall n :: 1 <= n < |Sweep(Levels)| ==> |Sweep(Levels)[n]| == 14
  {
    TotalIs();
    ProductLength(Levels);
    forall n | 1 <= n < |Sweep(Levels)|
      ensures |Sweep(Levels)[n]| == 14
    {
      RowSpec(Levels, n - 1);
    }
  }

  /** The first row is id 00001 and writes to test00001. */
  lemma FirstRow()
    ensures |Sweep(Levels)| > 1
    ensures Sweep(Levels)[1][0] == "00001" && Sweep(Levels)[1][1] == "test00001"
  {
    TotalIs();
    PadWidthIs();
    ProductLength(Levels);
    assert Sweep(Levels)[1] == ConfigRow(Levels, 0);
    assert NatToString(1) == "1";
    assert Zeros(4) == "0000";
  }
}
