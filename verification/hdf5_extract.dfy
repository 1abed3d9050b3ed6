/** scripts/extract_hdf5_counters.py: the POSIX extractor widened to two
    modules. The walk remembers which module's section it is in: a header
    naming POSIX or HDF5 enters that section, and any other "module data"
    line inside a section leaves it. Inside the POSIX section the same
    fourteen POSIX counters are summed; inside the HDF5 section, five HDF5
    counters. The process count, the logarithm pass and the command line
    are those of the POSIX extractor. */
module Hdf5Extract {
  import opened Wrappers
  import opened Text
  import Tables
  import DarshanDir
  import PosixExtract

  const Hdf5Counters: seq<string> := [
    "HDF5_OPENS", "HDF5_READS", "HDF5_WRITES", "HDF5_BYTES_READ", "HDF5_BYTES_WRITTEN"
  ]

  /** `current_module`: `None`, `'POSIX'` or `'HDF5'`. */
  datatype Module = NoModule | PosixModule | Hdf5Module

  datatype State = State(current: Module, sums: map<string, real>)

  /** The names summed inside a module's section. */
  function SummedIn(m: Module): seq<string> {
    match m
    case NoModule => []
    case PosixModule => PosixExtract.SummedCounters
    case Hdf5Module => Hdf5Counters
  }

  predicate Tracked(c: string) {
    c in PosixExtract.SummedCounters || c in Hdf5Counters
  }

  lemma SummedInTracked(m: Module)
    ensures forall c :: c in SummedIn(m) ==> Tracked(c)
  {
  }

  /** One iteration of the walk. The header tests come first, in the
      source's order, and only then the comment and blank-line skips. */
  function Step(st: State, raw: string, num: NumberSyntax): (r: State)
    ensures (forall c :: Tracked(c) ==> c in st.sums) ==> r.sums.Keys == st.sums.Keys
    ensures forall c :: c in st.sums && !Tracked(c) ==> c in r.sums && r.sums[c] == st.sums[c]
  {
    var line := Strip(raw);
    SummedInTracked(st.current);
    if PosixExtract.IsHeader(line, "POSIX") then State(PosixModule, st.sums)
    else if PosixExtract.IsHeader(line, "HDF5") then State(Hdf5Module, st.sums)
    else if Contains(line, PosixExtract.ModuleData) && st.current != NoModule then State(NoModule, st.sums)
    else if st.current != NoModule && StartsWith(line, "#") then st
    else if st.current != NoModule && |line| == 0 then st
    else if st.current != NoModule then
      st.(sums := PosixExtract.Accumulate(st.sums, SummedIn(st.current), line, num))
    else st
  }

  function Run(st: State, lines: seq<string>, num: NumberSyntax): State
    decreases |lines|
  {
    if |lines| == 0 then st else Run(Step(st, lines[0], num), lines[1..], num)
  }

  /** A POSIX header enters the POSIX section from any state, even when it
      names HDF5 as well: its test comes first. */
  lemma PosixHeaderWins(st: State, raw: string, num: NumberSyntax)
    requires PosixExtract.IsHeader(Strip(raw), "POSIX")
    ensures Step(st, raw, num) == State(PosixModule, st.sums)
  {
  }

  /** A header naming HDF5 and not POSIX enters the HDF5 section. */
  lemma Hdf5HeaderEnters(st: State, raw: string, num: NumberSyntax)
    requires PosixExtract.IsHeader(Strip(raw), "HDF5") && !Contains(Strip(raw), "POSIX")
    ensures Step(st, raw, num) == State(Hdf5Module, st.sums)
  {
  }

  /** Inside a section, a "module data" line naming neither module leaves
      it, whether or not it is a comment; the POSIX extractor, which skips
      comments first, stays in its section on the same line. */
  lemma OtherHeaderLeaves(sums: map<string, real>, m: Module, raw: string, num: NumberSyntax)
    requires m != NoModule
    requires Contains(Strip(raw), PosixExtract.ModuleData)
    requires !Contains(Strip(raw), "POSIX") && !Contains(Strip(raw), "HDF5")
    ensures Step(State(m, sums), raw, num) == State(NoModule, sums)
    ensures StartsWith(Strip(raw), "#") ==>
              PosixExtract.Step(PosixExtract.Section(true, sums), raw, num) == PosixExtract.Section(true, sums)
  {
  }

  /** Inside the POSIX section an HDF5 counter line changes nothing, and
      inside the HDF5 section a POSIX counter line changes nothing: each
      name is summed only in its own module's section. */
  lemma NamesStayInTheirModule(st: State, raw: string, num: NumberSyntax)
    requires st.current != NoModule
    requires PosixExtract.CounterLine(Strip(raw), num).Some?
    requires PosixExtract.CounterLine(Strip(raw), num).value.0 !in SummedIn(st.current)
    ensures Step(st, raw, num).sums == st.sums
  {
    var line := Strip(raw);
    if !Contains(line, PosixExtract.ModuleData) && !StartsWith(line, "#") && |line| > 0 {
      OtherCounterIgnored(st, raw, num);
    } else {
      NonCounterKeeps(st, raw, num);
    }
  }

  /** Inside a section, headers, comments and blank lines leave the
      counters alone. */
  lemma NonCounterKeeps(st: State, raw: string, num: NumberSyntax)
    requires st.current != NoModule
    requires Contains(Strip(raw), PosixExtract.ModuleData) || StartsWith(Strip(raw), "#") || |Strip(raw)| == 0
    ensures Step(st, raw, num).sums == st.sums
  {
    var line := Strip(raw);
    if PosixExtract.IsHeader(line, "POSIX") {
      assert Step(st, raw, num) == State(PosixModule, st.sums);
    } else if PosixExtract.IsHeader(line, "HDF5") {
      assert Step(st, raw, num) == State(Hdf5Module, st.sums);
    } else if Contains(line, PosixExtract.ModuleData) {
      assert Step(st, raw, num) == State(NoModule, st.sums);
    } else {
      assert Step(st, raw, num) == st;
    }
  }

  lemma OtherCounterIgnored(st: State, raw: string, num: NumberSyntax)
    requires st.current != NoModule
    requires !StartsWith(Strip(raw), "#") && |Strip(raw)| > 0 && !Contains(Strip(raw), PosixExtract.ModuleData)
    requires PosixExtract.CounterLine(Strip(raw), num).Some?
    requires PosixExtract.CounterLine(Strip(raw), num).value.0 !in SummedIn(st.current)
    ensures Step(st, raw, num).sums == st.sums
  {
    StepInside(st, raw, num);
    var (name, v) := PosixExtract.CounterLine(Strip(raw), num).value;
    PosixExtract.AccumulateCounter(st.sums, SummedIn(st.current), Strip(raw), num, name, v);
  }

  /** Inside a section, a counter line of that module adds its value to that
      counter and to no other. */
  lemma CounterLineAdds(st: State, raw: string, num: NumberSyntax, name: string, v: real)
    requires st.current != NoModule
    requires !StartsWith(Strip(raw), "#") && |Strip(raw)| > 0 && !Contains(Strip(raw), PosixExtract.ModuleData)
    requires PosixExtract.CounterLine(Strip(raw), num) == Some((name, v)) && name in SummedIn(st.current)
    ensures Step(st, raw, num) == State(st.current, st.sums[name := DarshanDir.Get(st.sums, name) + v])
  {
    StepInside(st, raw, num);
    PosixExtract.AccumulateCounter(st.sums, SummedIn(st.current), Strip(raw), num, name, v);
    assert PosixExtract.AddCounter(st.sums, SummedIn(st.current), name, v)
        == st.sums[name := DarshanDir.Get(st.sums, name) + v];
  }

  /** Inside a section, a line that is no header, comment or blank line is
      read as a counter line. */
  lemma StepInside(st: State, raw: string, num: NumberSyntax)
    requires st.current != NoModule
    requires !StartsWith(Strip(raw), "#") && |Strip(raw)| > 0 && !Contains(Strip(raw), PosixExtract.ModuleData)
    ensures Step(st, raw, num) == st.(sums := PosixExtract.Accumulate(st.sums, SummedIn(st.current), Strip(raw), num))
  {
    assert !PosixExtract.IsHeader(Strip(raw), "POSIX") && !PosixExtract.IsHeader(Strip(raw), "HDF5");
  }

  /** Outside every section only a header has any effect, and it leaves the
      counters alone. */
  lemma OutsideKeepsCounters(st: State, raw: string, num: NumberSyntax)
    requires st.current == NoModule
    ensures Step(st, raw, num).sums == st.sums
  {
    var line := Strip(raw);
    if PosixExtract.IsHeader(line, "POSIX") {
      assert Step(st, raw, num) == State(PosixModule, st.sums);
    } else if PosixExtract.IsHeader(line, "HDF5") {
      assert Step(st, raw, num) == State(Hdf5Module, st.sums);
    } else {
      assert Step(st, raw, num) == st;
    }
  }

  /** The walk keeps the set of keys and never changes an untracked value. */
  lemma {:induction false} RunKeepsOthers(st: State, lines: seq<string>, num: NumberSyntax)
    requires forall c :: Tracked(c) ==> c in st.sums
    ensures Run(st, lines, num).sums.Keys == st.sums.Keys
    ensures forall c :: c in st.sums && !Tracked(c) ==> Run(st, lines, num).sums[c] == st.sums[c]
    decreases |lines|
  {
    if |lines| > 0 {
      RunKeepsOthers(Step(st, lines[0], num), lines[1..], num);
    }
  }

  // ---------------------------------------------------------------------
  // The result row

  const NumericKeys: seq<string> := PosixExtract.NumericKeys + Hdf5Counters

  const Fieldnames: seq<string> := NumericKeys + ["tag"]

  const Tag := "ior_hdf5_benchmark"

  lemma TrackedAreNumeric(n: nat)
    ensures forall c :: Tracked(c) ==> c in PosixExtract.InitialSums(n, NumericKeys)
  {
    PosixExtract.SummedAreNumeric();
    assert forall c :: c in PosixExtract.SummedCounters ==> c in PosixExtract.NumericKeys;
  }

  lemma TagNotNumeric()
    ensures "tag" !in NumericKeys
  {
    PosixExtract.TagNotNumeric();
  }

  /** `parse_darshan_log`: no row when the parser failed; otherwise the row
      of the walk, with the POSIX and HDF5 counters and the HDF5 tag. */
  function ParseDarshanLog(parserOutput: Option<string>, num: NumberSyntax, log10: real -> real): (r: Option<Tables.Row>)
    ensures r.Some? <==> parserOutput.Some?
    ensures r.Some? ==> r.value.Keys == set c | c in Fieldnames
    ensures r.Some? ==> r.value["tag"] == Tables.Text(Tag)
  {
    match parserOutput
    case None => None
    case Some(text) =>
      var lines := Split(text, '\n');
      var init := State(NoModule, PosixExtract.InitialSums(PosixExtract.FindNprocs(lines).GetOr(0), NumericKeys));
      TagNotNumeric();
      TrackedAreNumeric(PosixExtract.FindNprocs(lines).GetOr(0));
      RunKeepsOthers(init, lines, num);
      Some(PosixExtract.CounterRow(Run(init, lines, num).sums, Tag, log10))
  }

  /** As in the POSIX extractor, an output counter that is summed in neither
      module is always written as 0.0. */
  lemma UntrackedCounterIsZero(text: string, num: NumberSyntax, log10: real -> real, c: string)
    requires c in DarshanDir.OutputCounters && !Tracked(c)
    ensures var row := ParseDarshanLog(Some(text), num, log10).value;
            c in row && row[c] == Tables.Num(0.0)
  {
    var lines := Split(text, '\n');
    var init := State(NoModule, PosixExtract.InitialSums(PosixExtract.FindNprocs(lines).GetOr(0), NumericKeys));
    TagNotNumeric();
    TrackedAreNumeric(PosixExtract.FindNprocs(lines).GetOr(0));
    RunKeepsOthers(init, lines, num);
    DarshanDir.NprocsNotCounter();
    assert c in NumericKeys && c != "nprocs";
    assert c in init.sums && init.sums[c] == 0.0;
    var st := Run(init, lines, num);
    assert st.sums[c] == 0.0;
    assert ParseDarshanLog(Some(text), num, log10) == Some(PosixExtract.CounterRow(st.sums, Tag, log10));
  }

  /** The command line: the same checks and exit statuses as the POSIX
      extractor, with this extractor's header and row. */
  function Cli(argv: seq<string>, logExists: bool, parserOutput: Option<string>,
               num: NumberSyntax, log10: real -> real): (out: PosixExtract.Outcome)
    ensures out.Usage? <==> |argv| != 3
    ensures out.LogNotFound? <==> |argv| == 3 && !logExists
    ensures out.ParseFailed? <==> |argv| == 3 && logExists && parserOutput.None?
    ensures out.Written? ==> out.path == argv[2] && out.header == Fieldnames
    ensures out.Written? ==> out.row.Keys == set c | c in out.header
  {
    if |argv| != 3 then PosixExtract.Usage
    else if !logExists then PosixExtract.LogNotFound
    else
      match ParseDarshanLog(parserOutput, num, log10)
      case None => PosixExtract.ParseFailed
      case Some(row) => PosixExtract.Written(argv[2], Fieldnames, row)
  }
}
