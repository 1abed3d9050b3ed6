/** scripts/extract_posix_counters.py: one summary row of POSIX counters
    from the text darshan-parser prints for one log.

    The text is split on newlines. The process count comes from the first
    line matching `nprocs:\s*(\d+)`. A small state machine then walks the
    lines, entering the POSIX section on a line that mentions both "POSIX"
    and "module data", and inside it sums fourteen counters read from
    whitespace-split lines. Every numeric value is finally replaced by its
    base-10 logarithm, or 0.0 when it is not positive. */
module PosixExtract {
  import opened Wrappers
  import opened Text
  import Tables
  import DarshanDir

  // ---------------------------------------------------------------------
  // The process count: `re.search(r'nprocs:\s*(\d+)', line)`

  const NprocsLabel := "nprocs:"

  /** The maximal run of ASCII digits at the front of `s`. */
  function DigitRun(s: string): (d: string)
    ensures StartsWith(s, d) && AllDigits(d)
    ensures |d| < |s| ==> !IsDigit(s[|d|])
    decreases |s|
  {
    if |s| > 0 && IsDigit(s[0]) then
      var d := DigitRun(s[1..]);
      assert ([s[0]] + d)[1..] == d;
      [s[0]] + d
    else []
  }

  /** The pattern matched at position `p`: the label, then (greedily) any
      whitespace, then at least one digit; the group is the whole digit run.
      Giving back whitespace cannot help, since whitespace is never a digit. */
  function NprocsAt(line: string, p: nat): Option<nat>
    requires p <= |line|
  {
    if StartsWith(line[p..], NprocsLabel) then
      var d := DigitRun(LStrip(line[p + |NprocsLabel|..]));
      if |d| > 0 then Some(DigitsValue(d)) else None
    else None
  }

  /** The least position from `p` to `n` that `hit` accepts, or `n + 1`
      when there is none. */
  function FirstFrom(n: nat, p: nat, hit: nat -> bool): (q: nat)
    requires p <= n
    ensures p <= q <= n + 1
    ensures q <= n ==> hit(q)
    ensures forall k :: p <= k < q && k <= n ==> !hit(k)
    decreases n - p
  {
    if hit(p) then p
    else if p == n then p + 1
    else FirstFrom(n, p + 1, hit)
  }

  /** The leftmost position at or after `p` where the pattern matches, or
      one past the end when there is none. */
  function MatchPos(line: string, p: nat): (q: nat)
    requires p <= |line|
    ensures p <= q <= |line| + 1
    ensures q <= |line| ==> NprocsAt(line, q).Some?
    ensures forall k :: p <= k < q && k <= |line| ==> NprocsAt(line, k).None?
  {
    var hit := (k: nat) => k <= |line| && NprocsAt(line, k).Some?;
    var q := FirstFrom(|line|, p, hit);
    forall k | p <= k < q && k <= |line|
      ensures NprocsAt(line, k).None?
    {
      assert !hit(k);
    }
    q
  }

  /** `re.search`: the group of the leftmost match, if any. */
  function SearchFrom(line: string, p: nat): (r: Option<nat>)
    requires p <= |line|
    ensures r.Some? <==> MatchPos(line, p) <= |line|
    ensures r.Some? ==> r == NprocsAt(line, MatchPos(line, p))
  {
    var q := MatchPos(line, p);
    if q <= |line| then NprocsAt(line, q) else None
  }

  /** One line of the count loop: the `in` guard, then the search. */
  function LineNprocs(line: string): Option<nat> {
    if Contains(line, NprocsLabel) then SearchFrom(line, 0) else None
  }

  /** A match needs the label somewhere in the line, so the `in` guard
      never hides a match. */
  lemma MatchHasLabel(line: string)
    requires SearchFrom(line, 0).Some?
    ensures Contains(line, NprocsLabel)
    ensures LineNprocs(line) == SearchFrom(line, 0)
  {
    var q := MatchPos(line, 0);
    assert line[q..][..|NprocsLabel|] == line[q..q + |NprocsLabel|];
    ContainsAt(line, NprocsLabel, q);
  }

  /** The first value `read` gives, line by line, with the line it came
      from: the loop body's `break` after the first hit. */
  function FirstHit(lines: seq<string>, read: string -> Option<nat>): (r: Option<nat>)
    ensures r.Some? ==> exists i :: (0 <= i < |lines| && read(lines[i]) == r
                                     && forall j :: 0 <= j < i ==> read(lines[j]).None?)
    ensures r.None? <==> forall i :: 0 <= i < |lines| ==> read(lines[i]).None?
    decreases |lines|
  {
    if |lines| == 0 then None
    else if read(lines[0]).Some? then read(lines[0])
    else
      var r := FirstHit(lines[1..], read);
      assert forall i :: 1 <= i < |lines| ==> lines[i] == lines[1..][i - 1];
      r
  }

  /** The count loop: the first line with a match decides. */
  function FindNprocs(lines: seq<string>): (r: Option<nat>)
    ensures r.Some? ==> exists i :: (0 <= i < |lines| && LineNprocs(lines[i]) == r
                                     && forall j :: 0 <= j < i ==> LineNprocs(lines[j]).None?)
    ensures r.None? <==> forall i :: 0 <= i < |lines| ==> LineNprocs(lines[i]).None?
  {
    FirstHit(lines, LineNprocs)
  }

  lemma LStripSpaceDigits(d: string)
    requires |d| > 0 && AllDigits(d)
    ensures LStrip(" " + d) == d
  {
    var s := " " + d;
    assert IsDigit(d[0]);
    assert LStrip(d) == d;
    assert IsSpace(s[0]) && s[1..] == d;
  }

  /** The line darshan-parser writes for the process count. */
  function NprocsHeader(n: nat): string {
    "# nprocs: " + NatToString(n)
  }

  lemma HeaderMatchAt(n: nat)
    ensures NprocsAt(NprocsHeader(n), 2) == Some(n)
  {
    var digits := NatToString(n);
    var line := NprocsHeader(n);
    assert line[2..][..|NprocsLabel|] == NprocsLabel;
    assert line[2 + |NprocsLabel|..] == " " + digits;
    LStripSpaceDigits(digits);
    assert DigitRun(digits) == digits;
    NatToStringRoundTrip(n);
  }

  lemma HeaderNoEarlierMatch(n: nat)
    ensures NprocsAt(NprocsHeader(n), 0).None? && NprocsAt(NprocsHeader(n), 1).None?
  {
    var line := NprocsHeader(n);
    assert line[0..][..|NprocsLabel|][0] == '#';
    assert line[1..][..|NprocsLabel|][0] == ' ';
  }

  /** The header line darshan-parser writes reads back as its count. */
  lemma NprocsHeaderRoundTrip(n: nat)
    ensures LineNprocs(NprocsHeader(n)) == Some(n)
  {
    var line := NprocsHeader(n);
    HeaderMatchAt(n);
    HeaderNoEarlierMatch(n);
    assert 2 <= |line|;
    forall k | 0 <= k < 2
      ensures NprocsAt(line, k).None?
    {
      assert k == 0 || k == 1;
    }
    LeftmostMatch(line, 2);
    assert SearchFrom(line, 0) == Some(n);
    MatchHasLabel(line);
  }

  /** A match with no match before it is the leftmost one. */
  lemma LeftmostMatch(line: string, q: nat)
    requires q <= |line| && NprocsAt(line, q).Some?
    requires forall k :: 0 <= k < q ==> NprocsAt(line, k).None?
    ensures MatchPos(line, 0) == q
  {
  }

  // ---------------------------------------------------------------------
  // The POSIX section state machine

  /** The fourteen counters the section loop sums; the other counters of the
      output keep their initial 0. */
  const SummedCounters: seq<string> := [
    "POSIX_OPENS", "POSIX_READS", "POSIX_WRITES", "POSIX_SEEKS", "POSIX_STATS",
    "POSIX_BYTES_READ", "POSIX_BYTES_WRITTEN", "POSIX_CONSEC_READS", "POSIX_CONSEC_WRITES",
    "POSIX_SEQ_READS", "POSIX_SEQ_WRITES", "POSIX_RW_SWITCHES",
    "POSIX_MEM_NOT_ALIGNED", "POSIX_FILE_NOT_ALIGNED"
  ]

  const ModuleData := "module data"

  /** The name and value of a counter line: whitespace fields two and three,
      when there are at least three and the third reads as a float. */
  function CounterLine(line: string, num: NumberSyntax): (r: Option<(string, real)>)
    ensures r.Some? <==> |Words(line)| >= 3 && num.parseFloat(Words(line)[2]).Some?
    ensures r.Some? ==> r.value == (Words(line)[1], num.parseFloat(Words(line)[2]).value)
  {
    var parts := Words(line);
    if |parts| < 3 then None
    else
      match num.parseFloat(parts[2])
      case Some(v) => Some((parts[1], v))
      case None => None
  }

  /** `counters[name] += value` for a name of the mapping chain. */
  function AddCounter(sums: map<string, real>, names: seq<string>, name: string, v: real): (r: map<string, real>)
    ensures name in names ==> r == sums[name := DarshanDir.Get(sums, name) + v]
    ensures name !in names ==> r == sums
  {
    if name in names then sums[name := DarshanDir.Get(sums, name) + v] else sums
  }

  predicate Covers(sums: map<string, real>, names: seq<string>) {
    forall c :: c in names ==> c in sums
  }

  /** A counter line inside a section: a parsed name of `names` adds its
      value; any other line leaves the sums alone. */
  function Accumulate(sums: map<string, real>, names: seq<string>, line: string, num: NumberSyntax): (r: map<string, real>)
    ensures Covers(sums, names) ==> r.Keys == sums.Keys
    ensures forall c :: c in sums && c !in names ==> c in r && r[c] == sums[c]
  {
    match CounterLine(line, num)
    case Some((name, v)) => AddCounter(sums, names, name, v)
    case None => sums
  }

  /** A line that reads as a counter line is added as that counter. */
  lemma AccumulateCounter(sums: map<string, real>, names: seq<string>, line: string, num: NumberSyntax,
                          name: string, v: real)
    requires CounterLine(line, num) == Some((name, v))
    ensures Accumulate(sums, names, line, num) == AddCounter(sums, names, name, v)
  {
  }

  /** On darshan-parser's counter layout (module, rank, record id, counter,
      value, ...) whitespace fields two and three are the rank and the
      record id. Such a line is read as a counter named after the rank,
      which is never a summed name, so inside the section it adds nothing,
      whatever counter and value it reports. */
  lemma RankFieldRead(st: Section, rank: int, fields: seq<string>, num: NumberSyntax)
    requires st.inPosix
    requires |fields| >= 5 && fields[0] == "POSIX" && fields[1] == IntToString(rank)
    requires forall k :: 0 <= k < |fields| ==> |fields[k]| > 0 && !HasSpace(fields[k])
    requires num.parseFloat(fields[2]).Some?
    ensures CounterLine(Join(fields, '\t'), num) == Some((fields[1], num.parseFloat(fields[2]).value))
    ensures fields[1] !in SummedCounters
    ensures Step(st, Join(fields, '\t'), num) == st
  {
    var line := Join(fields, '\t');
    TabLine(fields);
    RankNotSummed(rank);
    assert !IsHeader(line, "POSIX");
    assert !StartsWith(line, "#") by { assert line[0] == 'P'; }
    assert Step(st, line, num) == Section(true, Accumulate(st.sums, SummedCounters, line, num));
  }

  /** A tab-joined line of space-free fields is its own strip, splits back
      into its fields, and holds no "module data". */
  lemma TabLine(fields: seq<string>)
    requires |fields| >= 2
    requires forall k :: 0 <= k < |fields| ==> |fields[k]| > 0 && !HasSpace(fields[k])
    ensures Strip(Join(fields, '\t')) == Join(fields, '\t')
    ensures Join(fields, '\t')[0] == fields[0][0]
    ensures Words(Join(fields, '\t')) == fields
    ensures !Contains(Join(fields, '\t'), ModuleData)
  {
    WordsJoin(fields, '\t');
    TabLineStrip(fields);
    TabLineNoModuleData(fields);
  }

  lemma TabLineStrip(fields: seq<string>)
    requires |fields| >= 2
    requires forall k :: 0 <= k < |fields| ==> |fields[k]| > 0 && !HasSpace(fields[k])
    ensures Strip(Join(fields, '\t')) == Join(fields, '\t')
    ensures Join(fields, '\t')[0] == fields[0][0]
  {
    var line := Join(fields, '\t');
    JoinFront(fields, '\t');
    JoinLast(fields, '\t');
    var first, last := fields[0], fields[|fields| - 1];
    assert !HasSpace(first) && !HasSpace(last);
    assert !IsSpace(first[0]);
    assert !IsSpace(last[|last| - 1]);
    assert line[|line| - 1] == last[|last| - 1];
    assert line[0] == first[0];
    StripUnchanged(line);
  }

  lemma TabLineNoModuleData(fields: seq<string>)
    requires forall k :: 0 <= k < |fields| ==> !HasSpace(fields[k])
    ensures !Contains(Join(fields, '\t'), ModuleData)
  {
    JoinAvoids(fields, '\t', ' ');
    if Contains(Join(fields, '\t'), ModuleData) {
      ContainsHasChar(Join(fields, '\t'), ModuleData, 6);
    }
  }

  /** A rank's numeral never names a summed counter. */
  lemma RankNotSummed(rank: int)
    ensures IntToString(rank) !in SummedCounters
  {
    var r := IntToString(rank);
    if rank >= 0 {
      assert r == NatToString(rank);
    } else {
      assert r == "-" + NatToString(-rank);
    }
    assert r[0] != 'P';
    assert forall c :: c in SummedCounters ==> c[0] == 'P';
  }

  datatype Section = Section(inPosix: bool, sums: map<string, real>)

  predicate IsHeader(line: string, moduleName: string) {
    Contains(line, moduleName) && Contains(line, ModuleData)
  }

  /** One iteration of the section loop, on the line as split (it is
      stripped first). The tests run in the source's order. */
  function Step(st: Section, raw: string, num: NumberSyntax): (r: Section)
    ensures Covers(st.sums, SummedCounters) ==> r.sums.Keys == st.sums.Keys
    ensures forall c :: c in st.sums && c !in SummedCounters ==> c in r.sums && r.sums[c] == st.sums[c]
  {
    var line := Strip(raw);
    if IsHeader(line, "POSIX") then Section(true, st.sums)
    else if st.inPosix && StartsWith(line, "#") then st
    else if st.inPosix && |line| == 0 then st
    else if st.inPosix && Contains(line, ModuleData) && !Contains(line, "POSIX") then Section(false, st.sums)
    else if st.inPosix then Section(true, Accumulate(st.sums, SummedCounters, line, num))
    else st
  }

  function Run(st: Section, lines: seq<string>, num: NumberSyntax): Section
    decreases |lines|
  {
    if |lines| == 0 then st else Run(Step(st, lines[0], num), lines[1..], num)
  }

  /** A POSIX header line enters the section from any state, counters
      untouched. */
  lemma HeaderOpens(st: Section, raw: string, num: NumberSyntax)
    requires IsHeader(Strip(raw), "POSIX")
    ensures Step(st, raw, num) == Section(true, st.sums)
  {
  }

  /** Inside the section a comment line changes nothing, even when it names
      another module: the comment test comes before the closing test. */
  lemma CommentKeepsSection(st: Section, raw: string, num: NumberSyntax)
    requires st.inPosix && StartsWith(Strip(raw), "#")
    ensures Step(st, raw, num) == st
  {
    if IsHeader(Strip(raw), "POSIX") {
      assert Step(st, raw, num) == Section(true, st.sums);
    } else {
      assert Step(st, raw, num) == st;
    }
  }

  /** Inside the section, a line leaves it exactly when it is not a comment,
      not blank, mentions "module data" and does not mention POSIX. */
  lemma CloseIff(st: Section, raw: string, num: NumberSyntax)
    requires st.inPosix
    ensures !Step(st, raw, num).inPosix <==>
              (!StartsWith(Strip(raw), "#") && |Strip(raw)| > 0
               && Contains(Strip(raw), ModuleData) && !Contains(Strip(raw), "POSIX"))
  {
    var line := Strip(raw);
    var r := Step(st, raw, num);
    if IsHeader(line, "POSIX") {
      assert r.inPosix;
    } else if StartsWith(line, "#") || |line| == 0 {
      assert r == st;
    } else if Contains(line, ModuleData) {
      assert !r.inPosix;
    } else {
      assert r.inPosix;
    }
  }

  /** Outside the section only a POSIX header has any effect, and it leaves
      the counters alone. */
  lemma OutsideKeepsCounters(st: Section, raw: string, num: NumberSyntax)
    requires !st.inPosix
    ensures Step(st, raw, num).sums == st.sums
    ensures Step(st, raw, num).inPosix <==> IsHeader(Strip(raw), "POSIX")
  {
    if IsHeader(Strip(raw), "POSIX") {
      assert Step(st, raw, num) == Section(true, st.sums);
    } else {
      assert Step(st, raw, num) == st;
    }
  }

  /** Inside the section, a counter line naming a summed counter adds its
      value to that counter and to no other. */
  lemma CounterLineAdds(st: Section, raw: string, num: NumberSyntax, name: string, v: real)
    requires st.inPosix && !StartsWith(Strip(raw), "#") && |Strip(raw)| > 0
    requires !Contains(Strip(raw), ModuleData)
    requires CounterLine(Strip(raw), num) == Some((name, v)) && name in SummedCounters
    ensures Step(st, raw, num) == Section(true, st.sums[name := DarshanDir.Get(st.sums, name) + v])
  {
    var line := Strip(raw);
    assert !IsHeader(line, "POSIX");
    assert Step(st, raw, num) == Section(true, Accumulate(st.sums, SummedCounters, line, num));
    AccumulateCounter(st.sums, SummedCounters, line, num, name, v);
  }

  /** Walking two blocks of lines is walking the first, then the second. */
  lemma {:induction false} RunAppend(st: Section, xs: seq<string>, ys: seq<string>, num: NumberSyntax)
    ensures Run(st, xs + ys, num) == Run(Run(st, xs, num), ys, num)
    decreases |xs|
  {
    if |xs| == 0 {
      assert xs + ys == ys;
    } else {
      assert (xs + ys)[1..] == xs[1..] + ys;
      RunAppend(Step(st, xs[0], num), xs[1..], ys, num);
    }
  }

  /** The walk keeps the set of keys and never changes a value that is not
      one of the summed counters. */
  lemma {:induction false} RunKeepsOthers(st: Section, lines: seq<string>, num: NumberSyntax)
    requires Covers(st.sums, SummedCounters)
    ensures Run(st, lines, num).sums.Keys == st.sums.Keys
    ensures forall c :: c in st.sums && c !in SummedCounters ==> Run(st, lines, num).sums[c] == st.sums[c]
    decreases |lines|
  {
    if |lines| > 0 {
      RunKeepsOthers(Step(st, lines[0], num), lines[1..], num);
    }
  }

  // ---------------------------------------------------------------------
  // The result row

  /** Every numeric key of the counters dictionary, in order. */
  const NumericKeys: seq<string> := ["nprocs"] + DarshanDir.OutputCounters

  /** The CSV header: the numeric keys, then the tag. */
  const Fieldnames: seq<string> := NumericKeys + ["tag"]

  const Tag := "ior_benchmark"

  /** Every counter 0, the process count in `nprocs`. */
  function InitialSums(nprocs: nat, keys: seq<string>): (m: map<string, real>)
    ensures m.Keys == set c | c in keys
  {
    map c | c in keys :: if c == "nprocs" then nprocs as real else 0.0
  }

  /** The final transformation of one numeric value. */
  function LogValue(v: real, log10: real -> real): (r: real)
    ensures v > 0.0 ==> r == log10(v)
    ensures v <= 0.0 ==> r == 0.0
  {
    if v > 0.0 then log10(v) else 0.0
  }

  /** The returned dictionary: every numeric value log-transformed, the tag
      kept as text. */
  function CounterRow(sums: map<string, real>, tag: string, log10: real -> real): (row: Tables.Row)
    requires "tag" !in sums
    ensures row.Keys == sums.Keys + {"tag"}
    ensures row["tag"] == Tables.Text(tag)
    ensures forall c :: c in sums ==> row[c] == Tables.Num(LogValue(sums[c], log10))
  {
    (map c | c in sums :: Tables.Num(LogValue(sums[c], log10)))["tag" := Tables.Text(tag)]
  }

  lemma SummedAreNumeric()
    ensures Covers(InitialSums(0, NumericKeys), SummedCounters)
    ensures forall n: nat :: Covers(InitialSums(n, NumericKeys), SummedCounters)
  {
    assert forall c :: c in SummedCounters ==> c in NumericKeys;
  }

  lemma TagNotNumeric()
    ensures "tag" !in NumericKeys
  {
    DarshanDir.ColumnsOmitMetaTime();
    assert NumericKeys + ["tag"] == DarshanDir.Columns;
    assert "tag" !in DarshanDir.OutputCounters by {
      assert forall k :: 0 <= k < |DarshanDir.OutputCounters| ==> |DarshanDir.OutputCounters[k]| > 3;
    }
  }

  /** `parse_darshan_log`: no row when the parser failed; otherwise the row
      of the walk over the newline-separated text. */
  function ParseDarshanLog(parserOutput: Option<string>, num: NumberSyntax, log10: real -> real): (r: Option<Tables.Row>)
    ensures r.Some? <==> parserOutput.Some?
    ensures r.Some? ==> r.value.Keys == set c | c in Fieldnames
    ensures r.Some? ==> r.value["tag"] == Tables.Text(Tag)
  {
    match parserOutput
    case None => None
    case Some(text) =>
      var lines := Split(text, '\n');
      var st := Run(Section(false, InitialSums(FindNprocs(lines).GetOr(0), NumericKeys)), lines, num);
      TagNotNumeric();
      SummedAreNumeric();
      RunKeepsOthers(Section(false, InitialSums(FindNprocs(lines).GetOr(0), NumericKeys)), lines, num);
      Some(CounterRow(st.sums, Tag, log10))
  }

  /** A numeric key that no counter line sums keeps its initial value, and
      reaches the row log-transformed. */
  lemma RowKeepsUnsummed(text: string, num: NumberSyntax, log10: real -> real, c: string)
    requires c in NumericKeys && c !in SummedCounters
    ensures var init := InitialSums(FindNprocs(Split(text, '\n')).GetOr(0), NumericKeys);
            var row := ParseDarshanLog(Some(text), num, log10).value;
            c in init && c in row && row[c] == Tables.Num(LogValue(init[c], log10))
  {
    var lines := Split(text, '\n');
    var init := Section(false, InitialSums(FindNprocs(lines).GetOr(0), NumericKeys));
    TagNotNumeric();
    SummedAreNumeric();
    RunKeepsOthers(init, lines, num);
    var st := Run(init, lines, num);
    assert c in init.sums;
    assert ParseDarshanLog(Some(text), num, log10) == Some(CounterRow(st.sums, Tag, log10));
  }

  /** The process count reaches the row log-transformed like any counter,
      and 0.0 when no line matched. */
  lemma NprocsInRow(text: string, num: NumberSyntax, log10: real -> real)
    ensures var n := FindNprocs(Split(text, '\n')).GetOr(0);
            var row := ParseDarshanLog(Some(text), num, log10).value;
            "nprocs" in row && row["nprocs"] == Tables.Num(if n > 0 then log10(n as real) else 0.0)
  {
    var n := FindNprocs(Split(text, '\n')).GetOr(0);
    DarshanDir.NprocsNotCounter();
    assert "nprocs" !in SummedCounters;
    assert NumericKeys[0] == "nprocs";
    RowKeepsUnsummed(text, num, log10, "nprocs");
    assert InitialSums(n, NumericKeys)["nprocs"] == n as real;
  }

  /** A counter of the output that is not one of the fourteen summed ones is
      always written as 0.0, whatever the log says. */
  lemma UnsummedCounterIsZero(text: string, num: NumberSyntax, log10: real -> real, c: string)
    requires c in DarshanDir.OutputCounters && c !in SummedCounters
    ensures var row := ParseDarshanLog(Some(text), num, log10).value;
            c in row && row[c] == Tables.Num(0.0)
  {
    var n := FindNprocs(Split(text, '\n')).GetOr(0);
    DarshanDir.NprocsNotCounter();
    assert c in NumericKeys && c != "nprocs";
    RowKeepsUnsummed(text, num, log10, c);
    assert InitialSums(n, NumericKeys)[c] == 0.0;
  }

  // ---------------------------------------------------------------------
  // `main`

  datatype Outcome =
    | Usage                  // wrong argument count: exit status 1
    | LogNotFound            // exit status 1
    | ParseFailed            // exit status 1
    | Written(path: string, header: seq<string>, row: Tables.Row)

  /** The command line `script <log> <csv>`: `argv` includes the script
      name; whether the log exists and what the parser printed are given. */
  function Cli(argv: seq<string>, logExists: bool, parserOutput: Option<string>,
               num: NumberSyntax, log10: real -> real): (out: Outcome)
    ensures out.Usage? <==> |argv| != 3
    ensures out.LogNotFound? <==> |argv| == 3 && !logExists
    ensures out.ParseFailed? <==> |argv| == 3 && logExists && parserOutput.None?
    ensures out.Written? ==> out.path == argv[2] && out.header == Fieldnames
    ensures out.Written? ==> out.row.Keys == set c | c in out.header
  {
    if |argv| != 3 then Usage
    else if !logExists then LogNotFound
    else
      match ParseDarshanLog(parserOutput, num, log10)
      case None => ParseFailed
      case Some(row) => Written(argv[2], Fieldnames, row)
  }
}
