/** scripts/generate_and_submit_slurms.py: one SLURM batch file per
    configuration row. The numeric cells go through `int()`, the four flag
    columns become a command-line switch when they equal 1 and an empty
    string otherwise, and the file is a fixed list of lines with the row's
    values spliced in. The mpirun command is one line of space-separated
    words, so an absent switch leaves an empty word (a double space). */
module SlurmJob {
  import opened Wrappers
  import opened Text

  const SlurmDir := "generated_slurms"
  const IorBin := "~/.conda/envs/ior_env/bin/ior"
  const DarshanLib := "$HOME/.conda/envs/ior_env/lib/libdarshan.so"

  /** A configuration row as the CSV reader hands its cells over, as text. */
  datatype ConfigRow = ConfigRow(
    configId: string, testFile: string, api: string, transferSize: string, blockSize: string,
    segmentCount: string, numTasks: string, filePerProc: string, useStrided: string,
    setAlignment: string, useODirect: string, fsync: string,
    stripeSize: string, stripeWidth: string)

  /** The values the batch file is written from. */
  datatype Job = Job(
    configId: string, testFile: string, api: string, transferSize: string, blockSize: string,
    segmentCount: int, numTasks: int,
    filePerProc: bool, useStrided: bool, useODirect: bool, fsync: bool)

  /** A flag column is on when its cell reads as the integer 1. */
  function FlagOn(cell: string, num: NumberSyntax): (r: Option<bool>)
    ensures r.Some? <==> num.parseInt(cell).Some?
    ensures r == Some(true) <==> num.parseInt(cell) == Some(1)
  {
    match num.parseInt(cell)
    case None => None
    case Some(v) => Some(v == 1)
  }

  /** The cells read with `int()`, in the order the script reads them; the
      first one that does not read stops the script. */
  const IntColumns: seq<string> := [
    "segmentCount", "numTasks", "filePerProc", "useStridedDatatype", "useO_DIRECT", "fsync"
  ]

  function IntCells(row: ConfigRow): (cells: seq<string>)
    ensures |cells| == |IntColumns|
  {
    [row.segmentCount, row.numTasks, row.filePerProc, row.useStrided, row.useODirect, row.fsync]
  }

  /** The first `int()` cell that fails to read, by column name. */
  function FirstBadCell(row: ConfigRow, num: NumberSyntax, k: nat): (r: Option<string>)
    requires k <= |IntColumns|
    ensures r.None? <==> forall j :: k <= j < |IntColumns| ==> num.parseInt(IntCells(row)[j]).Some?
    ensures r.Some? ==> exists j :: k <= j < |IntColumns| && r.value == IntColumns[j]
                          && num.parseInt(IntCells(row)[j]).None?
                          && forall i :: k <= i < j ==> num.parseInt(IntCells(row)[i]).Some?
    decreases |IntColumns| - k
  {
    if k == |IntColumns| then None
    else if num.parseInt(IntCells(row)[k]).None? then Some(IntColumns[k])
    else FirstBadCell(row, num, k + 1)
  }

  /** Lines 15-26 of the script: the values of one row, or the column whose
      `int()` raised. */
  function Derive(row: ConfigRow, num: NumberSyntax): (r: Result<Job, string>)
    ensures r.Err? <==> FirstBadCell(row, num, 0).Some?
    ensures r.Err? ==> r.error == FirstBadCell(row, num, 0).value
    ensures r.Ok? ==> r.value.configId == row.configId && r.value.testFile == row.testFile
                      && r.value.api == row.api && r.value.transferSize == row.transferSize
                      && r.value.blockSize == row.blockSize
                      && Some(r.value.segmentCount) == num.parseInt(row.segmentCount)
                      && Some(r.value.numTasks) == num.parseInt(row.numTasks)
    ensures r.Ok? ==> (r.value.filePerProc <==> num.parseInt(row.filePerProc) == Some(1))
                      && (r.value.useStrided <==> num.parseInt(row.useStrided) == Some(1))
                      && (r.value.useODirect <==> num.parseInt(row.useODirect) == Some(1))
                      && (r.value.fsync <==> num.parseInt(row.fsync) == Some(1))
  {
    match FirstBadCell(row, num, 0)
    case Some(col) => Err(col)
    case None =>
      assert forall j :: 0 <= j < 6 ==> num.parseInt(IntCells(row)[j]).Some?;
      assert num.parseInt(IntCells(row)[0]).Some? && num.parseInt(IntCells(row)[1]).Some?;
      assert num.parseInt(IntCells(row)[2]).Some? && num.parseInt(IntCells(row)[3]).Some?;
      assert num.parseInt(IntCells(row)[4]).Some? && num.parseInt(IntCells(row)[5]).Some?;
      Ok(Job(row.configId, row.testFile, row.api, row.transferSize, row.blockSize,
             num.parseInt(row.segmentCount).value, num.parseInt(row.numTasks).value,
             FlagOn(row.filePerProc, num).value, FlagOn(row.useStrided, num).value,
             FlagOn(row.useODirect, num).value, FlagOn(row.fsync, num).value))
  }

  function Flag(on: bool, word: string): string {
    if on then word else ""
  }

  // ---------------------------------------------------------------------
  // The mpirun command line

  /** What the mpirun line says, with the numbers as the text written. */
  datatype Command = Command(
    numTasks: string, api: string, blockSize: string, transferSize: string, segmentCount: string,
    filePerProc: bool, fsync: bool, useStrided: bool, useODirect: bool, testFile: string)

  function CommandOf(job: Job): Command {
    Command(IntToString(job.numTasks), job.api, job.blockSize, job.transferSize,
            IntToString(job.segmentCount), job.filePerProc, job.fsync, job.useStrided,
            job.useODirect, job.testFile)
  }

  /** The twenty words of the command, in the order the script writes them. */
  function Words(c: Command): (ws: seq<string>)
    ensures |ws| == 20
  {
    ["mpirun", "-n", c.numTasks, IorBin,
     "-a", c.api, "-b", c.blockSize, "-t", c.transferSize, "-s", c.segmentCount,
     Flag(c.filePerProc, "-F"), "-z", Flag(c.fsync, "-e"), "-C",
     Flag(c.useStrided, "--mpiio.useStridedDatatype"), Flag(c.useODirect, "--posix.odirect"),
     "-o", c.testFile]
  }

  function Mpirun(c: Command): string {
    Join(Words(c), ' ')
  }

  /** Reads an mpirun line back: twenty space-separated words with the fixed
      words in their places and each switch either present or empty. */
  function ReadCommand(line: string): Option<Command> {
    ReadWords(Split(line, ' '))
  }

  function ReadWords(w: seq<string>): Option<Command> {
    if |w| == 20 && w[0] == "mpirun" && w[1] == "-n" && w[3] == IorBin
       && w[4] == "-a" && w[6] == "-b" && w[8] == "-t" && w[10] == "-s"
       && w[12] in {"-F", ""} && w[13] == "-z" && w[14] in {"-e", ""} && w[15] == "-C"
       && w[16] in {"--mpiio.useStridedDatatype", ""} && w[17] in {"--posix.odirect", ""}
       && w[18] == "-o"
    then Some(Command(w[2], w[5], w[7], w[9], w[11], w[12] == "-F", w[14] == "-e",
                      w[16] == "--mpiio.useStridedDatatype", w[17] == "--posix.odirect", w[19]))
    else None
  }

  /** The free-text words of a command hold no space. */
  predicate Spaceless(c: Command) {
    ' ' !in c.numTasks && ' ' !in c.api && ' ' !in c.blockSize && ' ' !in c.transferSize
    && ' ' !in c.segmentCount && ' ' !in c.testFile
  }

  /** Reading the rendered line gives the command back. */
  lemma ReadMpirun(c: Command)
    requires Spaceless(c)
    ensures ReadCommand(Mpirun(c)) == Some(c)
  {
    FixedWordsFree();
    WordsFree(c, ' ');
    SplitJoin(Words(c), ' ');
    ReadWordsOf(c);
  }

  lemma ReadWordsOf(c: Command)
    ensures ReadWords(Words(c)) == Some(c)
  {
  }

  /** A line that reads as a command is exactly that command's rendering. */
  lemma MpirunOfRead(line: string)
    requires ReadCommand(line).Some?
    ensures Mpirun(ReadCommand(line).value) == line
  {
    var w := Split(line, ' ');
    var ws := Words(ReadCommand(line).value);
    assert ws[12] == w[12] && ws[14] == w[14] && ws[16] == w[16] && ws[17] == w[17];
    assert ws == w;
  }

  lemma IntTextSpaceless(i: int)
    ensures ' ' !in IntToString(i) && '\n' !in IntToString(i)
  {
    var s := IntToString(i);
    forall k | 0 <= k < |s|
      ensures s[k] != ' ' && s[k] != '\n'
    {
      assert !IsSpace(s[k]);
    }
  }

  // ---------------------------------------------------------------------
  // The batch file

  function JobName(job: Job): string { "ior_" + job.configId }

  function DarshanLog(job: Job): string { "darshan_" + job.testFile + ".darshan" }

  /** `os.path.join(SLURM_TEMPLATE_DIR, f"ior_config_{config_id}.slurm")` */
  function SlurmPath(job: Job): string { SlurmDir + "/ior_config_" + job.configId + ".slurm" }

  const Shebang := "#!/bin/bash"
  const Account := "#SBATCH --account=bdau-delta-gpu"
  const Partition := "#SBATCH --partition=gpuA100x4-interactive"
  const Nodes := "#SBATCH --nodes=1"
  const Gres := "#SBATCH --gres=gpu:1"
  const CpusPerTask := "#SBATCH --cpus-per-task=2"
  const Memory := "#SBATCH --mem=64G"
  const TimeLimit := "#SBATCH --time=01:00:00"
  const Preload := "export LD_PRELOAD=\"" + DarshanLib + "\""
  const NonMpi := "export DARSHAN_ENABLE_NONMPI=1"

  function JobNameLine(job: Job): string { "#SBATCH --job-name=" + JobName(job) }
  function TasksLine(job: Job): string { "#SBATCH --ntasks=" + IntToString(job.numTasks) }
  function OutputLine(job: Job): string { "#SBATCH --output=logs/slurm/ior_" + job.configId + "_%j.out" }
  function ErrorLine(job: Job): string { "#SBATCH --error=logs/slurm/ior_" + job.configId + "_%j.err" }
  function LogfileLine(job: Job): string { "export DARSHAN_LOGFILE=\"" + DarshanLog(job) + "\"" }
  function CommandLine(job: Job): string { Mpirun(CommandOf(job)) }
  function FinishedLine(job: Job): string { "echo \"\U{2705} Finished: " + job.configId + "\"" }

  /** The lines of the file, without their line ends; the two empty lines
      come from the doubled line ends after the directives and the exports. */
  function ScriptLines(job: Job): (lines: seq<string>)
    ensures |lines| == 19
  {
    [Shebang, JobNameLine(job), Account, Partition, Nodes, TasksLine(job), Gres, CpusPerTask,
     Memory, TimeLimit, OutputLine(job), ErrorLine(job), "",
     Preload, NonMpi, LogfileLine(job), "",
     CommandLine(job), FinishedLine(job)]
  }

  /** The file text: every line followed by a line end. */
  function FileText(job: Job): string {
    Join(ScriptLines(job) + [""], '\n')
  }

  datatype SlurmFile = SlurmFile(path: string, text: string)

  function Render(job: Job): SlurmFile {
    SlurmFile(SlurmPath(job), FileText(job))
  }

  /** No cell of the row that reaches the file holds a line end. */
  predicate SingleLine(job: Job) {
    '\n' !in job.configId && '\n' !in job.testFile && '\n' !in job.api
    && '\n' !in job.transferSize && '\n' !in job.blockSize
  }

  lemma NoLineEndInJoin(ws: seq<string>, sep: char)
    requires forall k :: 0 <= k < |ws| ==> '\n' !in ws[k]
    requires sep != '\n'
    ensures '\n' !in Join(ws, sep)
    decreases |ws|
  {
    if |ws| > 1 {
      NoLineEndInJoin(ws[1..], sep);
    }
  }

  /** Reading the file back line by line gives the script's lines, then the
      empty remainder after the final line end. */
  lemma FileLines(job: Job)
    requires SingleLine(job)
    ensures Split(FileText(job), '\n') == ScriptLines(job) + [""]
  {
    var lines := ScriptLines(job) + [""];
    FixedLinesSingle();
    VariableLinesSingle(job);
    CommandLineSingle(job);
    assert forall k :: 0 <= k < |lines| ==> '\n' !in lines[k];
    SplitJoin(lines, '\n');
  }

  lemma FixedLinesSingle()
    ensures '\n' !in Shebang && '\n' !in Account && '\n' !in Partition && '\n' !in Nodes
    ensures '\n' !in Gres && '\n' !in CpusPerTask && '\n' !in Memory && '\n' !in TimeLimit
    ensures '\n' !in NonMpi && '\n' !in Preload
  {
    FixedDirectivesSingle();
    assert '\n' !in DarshanLib;
    assert '\n' !in "export LD_PRELOAD=\"";
    assert '\n' !in "\"";
  }

  lemma FixedDirectivesSingle()
    ensures '\n' !in Shebang && '\n' !in Account && '\n' !in Partition && '\n' !in Nodes
    ensures '\n' !in Gres && '\n' !in CpusPerTask && '\n' !in Memory && '\n' !in TimeLimit
    ensures '\n' !in NonMpi
  {
    ResourceDirectivesSingle();
    assert '\n' !in Shebang && '\n' !in Account && '\n' !in Partition;
    assert '\n' !in NonMpi;
  }

  lemma ResourceDirectivesSingle()
    ensures '\n' !in Nodes && '\n' !in Gres && '\n' !in CpusPerTask && '\n' !in Memory && '\n' !in TimeLimit
  {
  }

  lemma VariableLinesSingle(job: Job)
    requires SingleLine(job)
    ensures '\n' !in JobNameLine(job) && '\n' !in TasksLine(job)
    ensures '\n' !in OutputLine(job) && '\n' !in ErrorLine(job)
    ensures '\n' !in LogfileLine(job) && '\n' !in FinishedLine(job)
  {
    IntTextSpaceless(job.numTasks);
    DirectivePartsSingle();
    assert '\n' !in "\"";
    assert '\n' !in "export DARSHAN_LOGFILE=\"";
    assert '\n' !in "echo \"\U{2705} Finished: ";
  }

  lemma DirectivePartsSingle()
    ensures '\n' !in "#SBATCH --job-name=ior_" && '\n' !in "#SBATCH --ntasks="
    ensures '\n' !in "#SBATCH --output=logs/slurm/ior_" && '\n' !in "_%j.out"
    ensures '\n' !in "#SBATCH --error=logs/slurm/ior_" && '\n' !in "_%j.err"
    ensures '\n' !in "darshan_" && '\n' !in ".darshan"
  {
    LogDirectivesSingle();
  }

  lemma LogDirectivesSingle()
    ensures '\n' !in "#SBATCH --output=logs/slurm/ior_" && '\n' !in "#SBATCH --error=logs/slurm/ior_"
  {
  }

  lemma CommandLineSingle(job: Job)
    requires SingleLine(job)
    ensures '\n' !in CommandLine(job)
  {
    IntTextSpaceless(job.numTasks);
    IntTextSpaceless(job.segmentCount);
    var c := CommandOf(job);
    FixedWordsFree();
    WordsFree(c, '\n');
    NoLineEndInJoin(Words(c), ' ');
  }

  /** Neither a space nor a line end occurs in the fixed words. */
  lemma FixedWordsFree()
    ensures forall ch :: ch == ' ' || ch == '\n' ==>
              ch !in "mpirun" && ch !in "-n" && ch !in IorBin && ch !in "-a" && ch !in "-b"
              && ch !in "-t" && ch !in "-s" && ch !in "-F" && ch !in "-z" && ch !in "-e" && ch !in "-C"
              && ch !in "--mpiio.useStridedDatatype" && ch !in "--posix.odirect" && ch !in "-o"
  {
  }

  /** A character in none of the command's words. */
  lemma WordsFree(c: Command, ch: char)
    requires ch !in "mpirun" && ch !in "-n" && ch !in IorBin && ch !in "-a" && ch !in "-b"
    requires ch !in "-t" && ch !in "-s" && ch !in "-F" && ch !in "-z" && ch !in "-e" && ch !in "-C"
    requires ch !in "--mpiio.useStridedDatatype" && ch !in "--posix.odirect" && ch !in "-o"
    requires ch !in c.numTasks && ch !in c.api && ch !in c.blockSize && ch !in c.transferSize
    requires ch !in c.segmentCount && ch !in c.testFile
    ensures forall k :: 0 <= k < |Words(c)| ==> ch !in Words(c)[k]
  {
    var ws := Words(c);
    assert ch !in "";
    forall k | 0 <= k < |ws|
      ensures ch !in ws[k]
    {
    }
  }

  /** The job's words hold no space, so its command line reads back. */
  predicate SpacelessJob(job: Job) {
    ' ' !in job.api && ' ' !in job.blockSize && ' ' !in job.transferSize && ' ' !in job.testFile
  }

  /** The words of a job's command line. */
  lemma CommandWords(job: Job)
    requires SpacelessJob(job)
    ensures Split(CommandLine(job), ' ') == Words(CommandOf(job))
    ensures ReadCommand(CommandLine(job)) == Some(CommandOf(job))
  {
    IntTextSpaceless(job.numTasks);
    IntTextSpaceless(job.segmentCount);
    var c := CommandOf(job);
    FixedWordsFree();
    WordsFree(c, ' ');
    SplitJoin(Words(c), ' ');
    ReadWordsOf(c);
  }

  /** What the rendered command says about the row: the task count and
      sizes in their places, and each switch present exactly when its
      column reads as 1. */
  lemma CommandOfRow(row: ConfigRow, num: NumberSyntax)
    requires Derive(row, num).Ok? && SpacelessJob(Derive(row, num).value)
    ensures var c := ReadCommand(ScriptLines(Derive(row, num).value)[17]);
            c.Some?
            && Some(c.value.numTasks) == Some(IntToString(Derive(row, num).value.numTasks))
            && c.value.api == row.api && c.value.blockSize == row.blockSize
            && c.value.transferSize == row.transferSize && c.value.testFile == row.testFile
            && (c.value.filePerProc <==> num.parseInt(row.filePerProc) == Some(1))
            && (c.value.useStrided <==> num.parseInt(row.useStrided) == Some(1))
            && (c.value.useODirect <==> num.parseInt(row.useODirect) == Some(1))
            && (c.value.fsync <==> num.parseInt(row.fsync) == Some(1))
  {
    var job := Derive(row, num).value;
    CommandWords(job);
  }

  /** Word 12 of the command is "-F" when filePerProc reads as 1 and the
      empty word otherwise; likewise "-e" (word 14) for fsync,
      "--mpiio.useStridedDatatype" (16) and "--posix.odirect" (17). The
      fixed words keep their places around the row's values. */
  lemma SwitchWords(job: Job)
    requires SpacelessJob(job)
    ensures var w := Split(ScriptLines(job)[17], ' ');
            |w| == 20
            && w[12] == (if job.filePerProc then "-F" else "")
            && w[14] == (if job.fsync then "-e" else "")
            && w[16] == (if job.useStrided then "--mpiio.useStridedDatatype" else "")
            && w[17] == (if job.useODirect then "--posix.odirect" else "")
            && w[0] == "mpirun" && w[1] == "-n" && w[3] == IorBin
            && w[4] == "-a" && w[5] == job.api && w[6] == "-b" && w[7] == job.blockSize
            && w[8] == "-t" && w[9] == job.transferSize && w[10] == "-s" && w[11] == IntToString(job.segmentCount)
            && w[13] == "-z" && w[15] == "-C" && w[18] == "-o" && w[19] == job.testFile
  {
    CommandWords(job);
  }

  /** The `--ntasks` directive and `mpirun -n` carry the same number. */
  lemma TaskCountsAgree(job: Job)
    requires SpacelessJob(job)
    ensures var lines := ScriptLines(job);
            |Split(lines[17], ' ')| == 20 && Split(lines[17], ' ')[1] == "-n"
            && lines[5] == "#SBATCH --ntasks=" + Split(lines[17], ' ')[2]
  {
    CommandWords(job);
  }

  /** The names derived from the row's id and test file. */
  lemma NamesFromRow(row: ConfigRow, num: NumberSyntax)
    requires Derive(row, num).Ok?
    ensures var f := Render(Derive(row, num).value);
            f.path == "generated_slurms/ior_config_" + row.configId + ".slurm"
            && ScriptLines(Derive(row, num).value)[1] == "#SBATCH --job-name=ior_" + row.configId
            && ScriptLines(Derive(row, num).value)[15]
               == "export DARSHAN_LOGFILE=\"darshan_" + row.testFile + ".darshan\""
  {
    var job := Derive(row, num).value;
    assert job.configId == row.configId && job.testFile == row.testFile;
    JobNames(job);
  }

  lemma JobNames(job: Job)
    ensures SlurmPath(job) == "generated_slurms/ior_config_" + job.configId + ".slurm"
    ensures JobNameLine(job) == "#SBATCH --job-name=ior_" + job.configId
    ensures LogfileLine(job) == "export DARSHAN_LOGFILE=\"darshan_" + job.testFile + ".darshan\""
  {
    assert SlurmDir + "/ior_config_" == "generated_slurms/ior_config_";
    assert "#SBATCH --job-name=" + "ior_" == "#SBATCH --job-name=ior_";
    assert "export DARSHAN_LOGFILE=\"" + "darshan_" == "export DARSHAN_LOGFILE=\"darshan_";
    assert ".darshan" + "\"" == ".darshan\"";
  }

  /** setAlignment and the two stripe columns are read or carried but never
      written: changing them changes neither the outcome nor the file. */
  lemma IgnoredColumns(row: ConfigRow, num: NumberSyntax, alignment: string, size: string, width: string)
    ensures Derive(row.(setAlignment := alignment, stripeSize := size, stripeWidth := width), num) == Derive(row, num)
  {
    var row' := row.(setAlignment := alignment, stripeSize := size, stripeWidth := width);
    assert IntCells(row') == IntCells(row);
    FirstBadCellSame(row, row', num, 0);
  }

  lemma {:induction false} FirstBadCellSame(a: ConfigRow, b: ConfigRow, num: NumberSyntax, k: nat)
    requires k <= |IntColumns| && IntCells(a) == IntCells(b)
    ensures FirstBadCell(a, num, k) == FirstBadCell(b, num, k)
    decreases |IntColumns| - k
  {
    if k < |IntColumns| {
      FirstBadCellSame(a, b, num, k + 1);
    }
  }

  // ---------------------------------------------------------------------
  // The loop over rows

  /** The files written before the run stopped, and the column that
      stopped it, if any. */
  datatype Batch = Batch(files: seq<SlurmFile>, failure: Option<string>)

  /** The batch holds the file of each row in order, up to the first row
      that fails to read, whose column is the failure. */
  predicate BatchOf(rows: seq<ConfigRow>, num: NumberSyntax, b: Batch) {
    && |b.files| <= |rows|
    && (forall i :: 0 <= i < |b.files| ==> Derive(rows[i], num).Ok? && b.files[i] == Render(Derive(rows[i], num).value))
    && (b.failure.None? <==> |b.files| == |rows|)
    && (b.failure.Some? ==> Derive(rows[|b.files|], num) == Err(b.failure.value))
  }

  /** The loop: rows in order, each rendered until one fails to read. */
  function Generate(rows: seq<ConfigRow>, num: NumberSyntax): (b: Batch)
    ensures BatchOf(rows, num, b)
    decreases |rows|
  {
    if |rows| == 0 then Batch([], None)
    else
      match Derive(rows[0], num)
      case Err(col) => Batch([], Some(col))
      case Ok(job) =>
        var rest := Generate(rows[1..], num);
        BatchCons(rows, num, job, rest);
        Batch([Render(job)] + rest.files, rest.failure)
  }

  /** A row that reads, in front of the batch of the rows after it. */
  lemma BatchCons(rows: seq<ConfigRow>, num: NumberSyntax, job: Job, rest: Batch)
    requires |rows| > 0 && Derive(rows[0], num) == Ok(job)
    requires BatchOf(rows[1..], num, rest)
    ensures BatchOf(rows, num, Batch([Render(job)] + rest.files, rest.failure))
  {
    var files := [Render(job)] + rest.files;
    forall i | 0 <= i < |files|
      ensures Derive(rows[i], num).Ok? && files[i] == Render(Derive(rows[i], num).value)
    {
      if i > 0 {
        assert files[i] == rest.files[i - 1] && rows[i] == rows[1..][i - 1];
      }
    }
    if rest.failure.Some? {
      assert rows[|files|] == rows[1..][|rest.files|];
    }
  }

  /** When every row reads, every row gets its file. */
  lemma {:induction false} AllRowsRendered(rows: seq<ConfigRow>, num: NumberSyntax)
    requires forall i :: 0 <= i < |rows| ==> Derive(rows[i], num).Ok?
    ensures Generate(rows, num).failure.None? && |Generate(rows, num).files| == |rows|
    decreases |rows|
  {
    if |rows| > 0 {
      assert forall i :: 0 <= i < |rows[1..]| ==> rows[1..][i] == rows[i + 1];
      AllRowsRendered(rows[1..], num);
      assert Derive(rows[0], num).Ok?;
    }
  }
}
