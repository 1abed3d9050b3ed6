/** scripts/ior_configurations_generator_targeted.py: a sampled sweep. Each
    group of IOR settings pins some parameters to short lists; for every
    group the generator draws a fixed number of rows, each value picked at
    random from the group's list for that parameter or, for parameters the
    group leaves open, from the common list. Rows are numbered from 1 across
    all groups, the number zero-padded to five digits. The random choice is
    modelled as an arbitrary choice: the contracts hold for every outcome. */
module TargetedSweep {
  import opened Wrappers
  import opened Text
  import ConfigSweep

  const SamplesPerGroup: nat := 500
  const IdWidth: nat := 5

  const Apis: seq<string> := ["POSIX", "MPIIO"]
  const TransferSizes: seq<string> := ["4K", "10K", "64K", "100K", "1M"]
  const BlockSizes: seq<string> := ["1M", "4M", "16M", "256M", "1G"]
  const SegmentCounts: seq<string> := ["1", "16", "64", "256"]
  const NumTasks: seq<string> := ["4", "16", "64"]
  const SetAlignments: seq<string> := ["4K", "1M"]
  const StripeSizes: seq<string> := ["1M", "4M"]
  const StripeWidths: seq<string> := ["1", "4"]

  /** A group: the four flag lists every group gives, and the four size
      lists a group may give (`group.get(key, default)`). */
  datatype Group = Group(
    filePerProc: seq<string>, useStrided: seq<string>, useODirect: seq<string>, fsync: seq<string>,
    transferSize: Option<seq<string>>, blockSize: Option<seq<string>>,
    segmentCount: Option<seq<string>>, numTasks: Option<seq<string>>)

  /** The list each of the twelve parameter columns is drawn from. */
  function Choices(g: Group): (lists: seq<seq<string>>)
    ensures |lists| == 12
  {
    [Apis, g.transferSize.GetOr(TransferSizes), g.blockSize.GetOr(BlockSizes),
     g.segmentCount.GetOr(SegmentCounts), g.numTasks.GetOr(NumTasks),
     g.filePerProc, g.useStrided, SetAlignments, g.useODirect, g.fsync,
     StripeSizes, StripeWidths]
  }

  /** `random.choice` needs a non-empty list. */
  predicate Choosable(g: Group) {
    forall k :: 0 <= k < |Choices(g)| ==> |Choices(g)[k]| > 0
  }

  /** Parameter cells the group can produce: each from its column's list. */
  predicate Allowed(g: Group, params: seq<string>) {
    |params| == 12 && forall k :: 0 <= k < 12 ==> params[k] in Choices(g)[k]
  }

  function Base(fpp: seq<string>, usd: seq<string>, od: seq<string>, fs: seq<string>): Group {
    Group(fpp, usd, od, fs, None, None, None, None)
  }

  function Edge(fpp: string, usd: string, od: string, fs: string,
                ts: seq<string>, bs: string, sc: string, nt: string): Group {
    Group([fpp], [usd], [od], [fs], Some(ts), Some([bs]), Some([sc]), Some([nt]))
  }

  /** The four base groups, then the four edge-case groups. */
  const AllGroups: seq<Group> := [
    Base(["1"], ["0"], ["0"], ["0"]),
    Base(["1"], ["1"], ["0"], ["0"]),
    Base(["0"], ["0"], ["1"], ["1"]),
    Base(["1", "0"], ["0"], ["1"], ["1"]),
    Edge("1", "0", "0", "0", ["1M"], "1G", "4", "16"),
    Edge("1", "1", "0", "0", ["64K"], "4M", "64", "16"),
    Edge("1", "0", "0", "0", ["10K", "64K", "100K"], "1M", "16", "16"),
    Edge("1", "1", "0", "1", ["4K"], "1M", "256", "16")
  ]

  lemma AllGroupsChoosable()
    ensures forall g :: g in AllGroups ==> Choosable(g)
  {
  }

  /** One draw of the twelve values. */
  method Pick(g: Group) returns (params: seq<string>)
    requires Choosable(g)
    ensures Allowed(g, params)
  {
    var lists := Choices(g);
    params := [];
    var k := 0;
    while k < 12
      invariant 0 <= k <= 12 && |params| == k
      invariant forall m :: 0 <= m < k ==> params[m] in lists[m]
    {
      assert lists[k][0] in lists[k];
      var v :| v in lists[k];
      params := params + [v];
      k := k + 1;
    }
  }

  /** `str(config_id).zfill(5)` */
  function RowId(configId: nat): string {
    ZFill(NatToString(configId), IdWidth)
  }

  /** The number of the block of `n` rows that position `i` falls in:
      `i // n`. */
  function Block(i: nat, n: nat): nat
    requires n > 0
    decreases i
  {
    if i < n then 0 else 1 + Block(i - n, n)
  }

  /** The `s`-th row of block `g` is in block `g`. */
  lemma {:induction false} BlockOf(g: nat, s: nat, n: nat)
    requires s < n
    ensures Block(g * n + s, n) == g
    decreases g
  {
    if g > 0 {
      BlockOf(g - 1, s, n);
      assert g * n + s - n == (g - 1) * n + s;
    }
  }

  /** Row `i` of the output, drawn for group `g`. */
  predicate RowOf(row: seq<string>, i: nat, g: Group) {
    |row| == 14 && row[0] == RowId(i + 1) && row[1] == "test" + row[0] && Allowed(g, row[2..])
  }

  /** The whole sample: `perGroup` rows per group, in group order. Row `i`
      has id `i + 1` and test file `test<id>`, and its parameters are ones
      its group (number `i // perGroup`) can produce. */
  method Generate(groups: seq<Group>, perGroup: nat) returns (rows: seq<seq<string>>)
    requires forall g :: g in groups ==> Choosable(g)
    ensures |rows| == |groups| * perGroup
    ensures forall i :: 0 <= i < |rows| ==>
              perGroup > 0 && Block(i, perGroup) < |groups| && RowOf(rows[i], i, groups[Block(i, perGroup)])
  {
    rows := [];
    var gi := 0;
    while gi < |groups|
      invariant 0 <= gi <= |groups|
      invariant |rows| == gi * perGroup
      invariant RowsFromGroups(rows, groups, perGroup)
    {
      var samples := 0;
      while samples < perGroup
        invariant 0 <= samples <= perGroup
        invariant |rows| == gi * perGroup + samples
        invariant RowsFromGroups(rows, groups, perGroup)
      {
        assert groups[gi] in groups;
        var params := Pick(groups[gi]);
        var id := RowId(|rows| + 1);
        var row := [id, "test" + id] + params;
        assert row[2..] == params;
        AppendRow(groups, perGroup, gi, samples, rows, row);
        rows := rows + [row];
        samples := samples + 1;
      }
      assert (gi + 1) * perGroup == gi * perGroup + perGroup;
      gi := gi + 1;
    }
  }

  /** Every row so far comes from its block's group. */
  predicate RowsFromGroups(rows: seq<seq<string>>, groups: seq<Group>, perGroup: nat) {
    forall i :: 0 <= i < |rows| ==>
      perGroup > 0 && Block(i, perGroup) < |groups| && RowOf(rows[i], i, groups[Block(i, perGroup)])
  }

  /** Row `samples` of block `gi`, drawn for group `gi`, extends the rows. */
  lemma AppendRow(groups: seq<Group>, perGroup: nat, gi: nat, samples: nat, rows: seq<seq<string>>, row: seq<string>)
    requires gi < |groups| && samples < perGroup && |rows| == gi * perGroup + samples
    requires RowsFromGroups(rows, groups, perGroup)
    requires RowOf(row, |rows|, groups[gi])
    ensures RowsFromGroups(rows + [row], groups, perGroup)
  {
    BlockOf(gi, samples, perGroup);
    var rows' := rows + [row];
    forall i | 0 <= i < |rows'|
      ensures Block(i, perGroup) < |groups| && RowOf(rows'[i], i, groups[Block(i, perGroup)])
    {
      if i < |rows| {
        assert rows'[i] == rows[i];
      } else {
        assert rows'[i] == row;
      }
    }
  }

  /** Ids read back as their row numbers, so no two rows share one. */
  lemma RowIdsDistinct(i: nat, j: nat)
    requires i != j
    ensures AllDigits(RowId(i)) && DigitsValue(RowId(i)) == i
    ensures RowId(i) != RowId(j)
  {
    ZFillRoundTrip(i, IdWidth);
    ZFillRoundTrip(j, IdWidth);
  }

  /** Up to 99999 rows every id has exactly five digits; the full sample of
      8 groups of 500 rows stays within that. */
  lemma IdWidthHolds(k: nat)
    requires k <= 99999
    ensures |RowId(k)| == 5
  {
    NatToStringMonotone(k, 99999);
    assert |NatToString(99999)| == 5 by {
      assert |NatToString(9)| == 1;
      assert |NatToString(99)| == 2;
      assert |NatToString(999)| == 3;
      assert |NatToString(9999)| == 4;
    }
  }

  /** The concrete run: 4000 rows under the fixed header, ids 00001..04000. */
  method GenerateAll() returns (header: seq<string>, rows: seq<seq<string>>)
    ensures header == ConfigSweep.Header
    ensures |rows| == 4000
    ensures forall i :: 0 <= i < |rows| ==>
              Block(i, 500) < 8 && RowOf(rows[i], i, AllGroups[Block(i, 500)]) && |rows[i][0]| == 5
  {
    AllGroupsChoosable();
    header := ConfigSweep.Header;
    rows := Generate(AllGroups, SamplesPerGroup);
    forall i | 0 <= i < |rows|
      ensures |rows[i][0]| == 5
    {
      assert RowOf(rows[i], i, AllGroups[Block(i, 500)]);
      IdWidthHolds(i + 1);
    }
  }

  /** Edge-case group 5 pins transfer size, block size, segment count and
      task count: every row it produces carries exactly those values. */
  lemma EdgeGroupPinned(params: seq<string>)
    requires Allowed(AllGroups[4], params)
    ensures params[1] == "1M" && params[2] == "1G" && params[3] == "4" && params[4] == "16"
    ensures params[3] !in SegmentCounts
  {
    assert Choices(AllGroups[4])[1] == ["1M"];
    assert Choices(AllGroups[4])[2] == ["1G"];
    assert Choices(AllGroups[4])[3] == ["4"];
    assert Choices(AllGroups[4])[4] == ["16"];
  }
}
