# IOR benchmark tooling: a Dafny model of its data-processing core

The IOR benchmark repository drives IOR runs under the Darshan I/O profiler.
Python scripts generate the run configurations, turn each one into a SLURM
batch file, reduce the text darshan-parser prints into counter tables, and
summarise those tables. This project models the pure part of these scripts:
everything that maps text or rows to text or rows. It proves what the scripts
promise about their outputs.

One module per script:

- `DarshanDir` (`parse_darshan_dir.py`) is the per-rank aggregator.
  - Tab-separated POSIX/LUSTRE lines are read into (rank, counter, value) samples.
  - Allow-listed counters are summed per rank.
  - Each rank becomes one record: every counter, with 0.0 for those never seen, and a throughput `tag`.
  - The records of every `.darshan` file are sorted by rank.
  - The stored sums are proved equal to a reference definition: the order-free sum of every accepted line's contribution.
- `DarshanScript` (`extract_darshan_to_csv.py`) is the single-file twin. It strips each line before splitting it. A lemma proves that both scripts give the same records when no line has trailing whitespace.
- `PosixExtract` (`extract_posix_counters.py`) models:
  - the `nprocs:\s*(\d+)` search, which takes the first matching line;
  - the POSIX-section state machine, which sums fourteen counters from whitespace-split lines;
  - the final log10 pass and the command line.
- `Hdf5Extract` (`extract_hdf5_counters.py`) is the two-module state machine. Its header tests run before the comment test, so a `#` line that names another module closes the current section. The POSIX extractor skips the same line as a comment. Lemmas state both behaviours.
- `ConfigSweep` and `Cartesian` (`ior_configurations_generator.py`) model:
  - `itertools.product` as a mixed-radix enumeration;
  - the zero-padded ids and the test file names;
  - the concrete sweep of 20736 rows with five-digit ids.
- `TargetedSweep` (`ior_configurations_generator_targeted.py`) models the grouped sampling. `random.choice` becomes an arbitrary choice from the allowed list, and every contract holds for every choice.
- `SlurmJob` (`generate_and_submit_slurms.py`) models:
  - the `int()` reads of a row and the four conditional switches;
  - the batch-file text;
  - reading the `mpirun` line back into the values it was written from.
- `BenchmarkResults` (`analyze_benchmark_results.py`) models:
  - the `*_counters_*.csv` glob;
  - the file name classifier;
  - the stamping and concatenation of tables;
  - the (configuration, type) summary of means.
- `CsvCoverage` (`analyze_csv_data.py`) models the prefix column selection, the non-zero coverage counts, the complete-row count and the bar chart data.
- `Diversity` (`test_script.py`) models the value frequencies, the rarity score, the descending ranking and the top ten.
- `SortByTag` (`sort_by_tag.py`) models the column check, the ascending tag sort and the two-column projection.

Shared modules:

- `Text`: Python string methods, plus `str(n)` and `zfill`.
- `Seqs`: filter, count, map and distinctness.
- `Sums`: sums over sequences, independent of order.
- `Sorting`: a sort by a real key, giving a sorted permutation.
- `Tables`: a pandas frame, as column names plus rows of cells. A cell is a number, a text or missing.
- `Wrappers`: `Option` and `Result`.

Some things the scripts depend on are not modelled; they are passed in as parameters instead:

- Python's `int()` and `float()` are the two partial functions of a `NumberSyntax`.
- `math.log10` is a function `real -> real`.
- The output of darshan-parser is given as text or lines, or as `None` when the parser failed.
- File existence and directory listings are given as values.

`extract_posix_counters.py` and `extract_hdf5_counters.py` read a counter line's name and value from whitespace fields two and three. On darshan-parser's usual layout (module, rank, record id, counter, value) those fields are the rank and the record id. The model follows the code as written. `PosixExtract.RankFieldRead` shows the consequence: on such a line, the rank is read as the counter name, so the line adds nothing.

## Model

| member | source | states |
|---|---|---|
| DarshanDir.ReadFields | scripts/parse_darshan_dir.py:39-49 | A line yields a sample exactly when it starts with POSIX or LUSTRE, has at least five tab fields, and its second field reads as an int and its fifth as a float. The sample is then (field 2, field 4, field 5). Any other line is skipped. |
| DarshanDir.ParseLineOfFields | scripts/parse_darshan_dir.py:41-44 | A line made of tab-joined fields reads back as rank from field 2, name from field 4 and value from field 5. Fields after the fifth are ignored. |
| Text.Split | scripts/parse_darshan_dir.py:41 | `split('\t')` returns at least one part. No part holds a tab, and joining the parts with tabs gives the line back. |
| Text.SplitJoin | scripts/parse_darshan_dir.py:41 | Splitting tab-joined fields that hold no tab gives the fields back. |
| DarshanDir.ScanSpec | scripts/parse_darshan_dir.py:37-51 | The line loop (`Scan`): afterwards the per-rank table holds exactly the ranks that have an accepted line naming an allow-listed counter, each once. For every rank and counter, the stored sum equals the reference total of the accepted values. |
| DarshanDir.TotalOrderFree | scripts/parse_darshan_dir.py:50-51 | The sum for a (rank, counter) pair does not depend on the order of the lines. |
| DarshanDir.RecordsSpec | scripts/parse_darshan_dir.py:53-70 | There is one record per distinct accepted rank and never two for the same rank. Each record equals the record built from that rank's line totals. |
| DarshanDir.RecordAt | scripts/parse_darshan_dir.py:54-59 | Record i belongs to the i-th rank in first-seen order and carries that rank's totals. |
| DarshanDir.NoAcceptedNoRecords | scripts/parse_darshan_dir.py:37-71 | Text with no readable line gives an empty list of records. |
| DarshanDir.ParseFile | scripts/parse_darshan_dir.py:28-71 | A parser failure gives no records. Otherwise there is one record per accepted rank, no rank twice, each equal to the record its line totals determine. |
| DarshanDir.RowFrom | scripts/parse_darshan_dir.py:56-68 | A record has exactly the columns nprocs, every output counter and tag, with the rank under nprocs. The meta-time helper is not among them. |
| DarshanDir.TimeFloor | scripts/parse_darshan_dir.py:63-65 | The divisor is always positive. It equals the meta-time whenever the meta-time is positive. |
| DarshanDir.Tag | scripts/parse_darshan_dir.py:61-66 | The tag multiplied by the divisor gives back the bytes read plus the bytes written, so the tag is defined for every input. |
| DarshanDir.TagFloorExample | scripts/parse_darshan_dir.py:62-66 | 100 bytes read, none written and no meta-time give the tag 1e11, through the 1e-9 floor. |
| DarshanDir.ColumnsOmitMetaTime | scripts/parse_darshan_dir.py:101-103 | The output column order (nprocs, the counters, tag) never contains POSIX_F_META_TIME. |
| DarshanDir.NprocsNotCounter | scripts/parse_darshan_dir.py:10-25 | The rank column is not the name of any allow-listed counter. |
| DarshanDir.ParseDir | scripts/parse_darshan_dir.py:85-106 | The run exits with status 1 exactly when no file gave a record. Otherwise it writes the fixed column order, and its rows are the records of all `.darshan` files, rearranged into ascending nprocs. |
| Sorting.SortBy | scripts/parse_darshan_dir.py:106 | Sorting gives the same rows, as a multiset, in ascending order of the key. |
| DarshanScript.Extract | scripts/extract_darshan_to_csv.py:22-64 | The script fails without an input argument, and fails at the sort when no record was built. Otherwise it saves to the given or default path, in the fixed columns, a key-sorted permutation of the records. |
| DarshanScript.StripLineEnd | scripts/extract_darshan_to_csv.py:29 | Stripping a line read with its newline gives the bare line back when the line has no surrounding whitespace. |
| Text.LStrip | scripts/extract_darshan_to_csv.py:29 | The part `strip()` removes in front is all whitespace, and what remains does not start with whitespace. |
| Text.RStrip | scripts/extract_darshan_to_csv.py:29 | The part `strip()` removes at the end is all whitespace, and what remains does not end with whitespace. |
| Text.Strip | scripts/extract_posix_counters.py:92 | The stripped line is a piece of the line with only whitespace before and after it. When it is not empty, it starts and ends with a non-space character. |
| Text.StripUnchanged | scripts/extract_posix_counters.py:92 | A line that starts and ends with a non-space character is its own strip. |
| DarshanScript.SameSample | scripts/extract_darshan_to_csv.py:26-38 | On a line with its newline and without trailing whitespace, this script reads the same sample as the directory aggregator reads from the bare line. |
| DarshanScript.AgreesWithDirectoryParser | scripts/extract_darshan_to_csv.py:22-59 | On a file whose lines have no trailing whitespace, this script builds exactly the records that the directory aggregator's `parse_file` builds from the same lines. |
| PosixExtract.DigitRun | scripts/extract_posix_counters.py:84 | `\d+` takes the longest run of digits at the front. The character after the run is not a digit. |
| PosixExtract.MatchPos | scripts/extract_posix_counters.py:84 | The search finds the leftmost position where the pattern matches, and no position before it matches. |
| PosixExtract.SearchFrom | scripts/extract_posix_counters.py:84 | The search succeeds exactly when some position matches. Its group is the number read at the leftmost match. |
| PosixExtract.MatchHasLabel | scripts/extract_posix_counters.py:83-85 | Any line the regex matches contains "nprocs:", so the substring guard before the search never hides a match. |
| PosixExtract.FindNprocs | scripts/extract_posix_counters.py:82-87 | The count comes from the first line that matches, and no earlier line matches. It is absent exactly when no line matches. |
| PosixExtract.NprocsHeaderRoundTrip | scripts/extract_posix_counters.py:82-87 | The header line `# nprocs: N` that darshan-parser prints reads back as N. |
| PosixExtract.CounterLine | scripts/extract_posix_counters.py:110-114 | A line is a counter line exactly when it has at least three whitespace fields and the third reads as a float. Its name is field 2 and its value is field 3. |
| Text.Words | scripts/extract_posix_counters.py:110 | `split()` gives non-empty fields without whitespace. |
| Text.WordsJoin | scripts/extract_posix_counters.py:110 | `split()` gives back fields that were joined by one whitespace character, a space or a tab. |
| PosixExtract.RankFieldRead | scripts/extract_posix_counters.py:110-144 | On darshan-parser's counter layout (POSIX, rank, record id, counter, value, tab-separated) the line reads as a counter named after the rank, with the record id as its value. The rank's numeral is never a summed name, so the line changes nothing inside the section. |
| PosixExtract.AccumulateCounter | scripts/extract_posix_counters.py:110-144 | A counter line adds its value to its counter when the name is one of the summed names, and otherwise leaves the sums unchanged. |
| PosixExtract.Step | scripts/extract_posix_counters.py:91-148 | One line never changes the set of counters or any counter outside the fourteen summed ones. |
| PosixExtract.HeaderOpens | scripts/extract_posix_counters.py:94-96 | A line naming POSIX and "module data" enters the section from any state and leaves the counters unchanged. |
| PosixExtract.CommentKeepsSection | scripts/extract_posix_counters.py:98-99 | Inside the section a `#` line changes nothing, even when it names another module's data. |
| PosixExtract.CloseIff | scripts/extract_posix_counters.py:98-106 | Inside the section, a line leaves it exactly when it is not a comment, not blank, mentions "module data" and does not mention POSIX. |
| PosixExtract.OutsideKeepsCounters | scripts/extract_posix_counters.py:94-108 | Outside the section no line changes a counter. Only a POSIX header enters the section. |
| PosixExtract.CounterLineAdds | scripts/extract_posix_counters.py:108-144 | Inside the section, a counter line for one of the fourteen names adds its value to that counter alone. |
| PosixExtract.RunAppend | scripts/extract_posix_counters.py:91-148 | `Run`, the section loop over all lines: walking two blocks of lines in one pass is the same as walking the first block and then the second from where it ended. |
| PosixExtract.RunKeepsOthers | scripts/extract_posix_counters.py:90-148 | `Run` keeps the set of keys and every value that is not one of the fourteen summed counters. |
| PosixExtract.InitialSums | scripts/extract_posix_counters.py:29-76 | The starting dictionary has exactly the numeric keys. |
| PosixExtract.SummedAreNumeric | scripts/extract_posix_counters.py:29-76 | Every summed counter has an entry in the starting dictionary, whatever the process count. |
| PosixExtract.TagNotNumeric | scripts/extract_posix_counters.py:75 | The tag is not among the numeric keys, so the log pass leaves it as text. |
| PosixExtract.CounterRow | scripts/extract_posix_counters.py:154-158 | Every numeric value becomes log10 of itself when positive and 0.0 otherwise. The tag is kept as text. |
| PosixExtract.ParseDarshanLog | scripts/extract_posix_counters.py:16-160 | It gives no row exactly when the parser failed. Otherwise the row has exactly the 46 output fields, with tag "ior_benchmark". |
| PosixExtract.RowKeepsUnsummed | scripts/extract_posix_counters.py:29-158 | A numeric key that is not summed reaches the row as the log-transformed initial value. |
| PosixExtract.NprocsInRow | scripts/extract_posix_counters.py:82-158 | The row's nprocs is log10 of the count found, or 0.0 when no line matched. |
| PosixExtract.UnsummedCounterIsZero | scripts/extract_posix_counters.py:117-144 | The LUSTRE, SIZE, STRIDE, ACCESS, FILENOS and alignment columns are always 0.0, whatever the log says. |
| PosixExtract.Cli | scripts/extract_posix_counters.py:162-205 | It exits 1 on a wrong argument count, on a missing log or on a parser failure, in that order. Otherwise it writes the one row under the fixed header to the second argument. |
| Hdf5Extract.Step | scripts/extract_hdf5_counters.py:95-167 | One line never changes the set of counters or any untracked counter. |
| Hdf5Extract.PosixHeaderWins | scripts/extract_hdf5_counters.py:99-104 | A line naming POSIX and "module data" enters the POSIX section from any state, with the counters unchanged, even when it also names HDF5. |
| Hdf5Extract.Hdf5HeaderEnters | scripts/extract_hdf5_counters.py:102-104 | A header naming HDF5 and not POSIX enters the HDF5 section from any state. |
| Hdf5Extract.OtherHeaderLeaves | scripts/extract_hdf5_counters.py:105-107 | Inside a section, a "module data" line naming neither module leaves the section, even when it starts with `#`. The POSIX extractor stays in its section on that same comment line. |
| Hdf5Extract.NonCounterKeeps | scripts/extract_hdf5_counters.py:98-113 | Inside a section, header, comment and blank lines leave the counters alone. |
| Hdf5Extract.NamesStayInTheirModule | scripts/extract_hdf5_counters.py:124-164 | A counter line whose name is not summed in the current section changes nothing. So POSIX names never count in the HDF5 section, and the reverse. |
| Hdf5Extract.OtherCounterIgnored | scripts/extract_hdf5_counters.py:115-167 | A counter line inside a section for a name the section does not sum leaves the counters unchanged. |
| Hdf5Extract.StepInside | scripts/extract_hdf5_counters.py:115-121 | Inside a section, a line that is not a header, comment or blank line is read as a counter line. |
| Hdf5Extract.CounterLineAdds | scripts/extract_hdf5_counters.py:115-164 | Inside a section, a counter line for one of that module's names adds its value to that counter alone. |
| Hdf5Extract.OutsideKeepsCounters | scripts/extract_hdf5_counters.py:95-115 | Outside every section no line changes a counter. |
| Hdf5Extract.RunKeepsOthers | scripts/extract_hdf5_counters.py:94-167 | `Run`, the walk over all lines, keeps the set of keys and every untracked value. |
| Hdf5Extract.TrackedAreNumeric | scripts/extract_hdf5_counters.py:28-80 | Every counter either module sums has an entry in the starting dictionary. |
| Hdf5Extract.ParseDarshanLog | scripts/extract_hdf5_counters.py:16-179 | It gives no row exactly when the parser failed. Otherwise the row has exactly the 51 output fields, with tag "ior_hdf5_benchmark". |
| Hdf5Extract.UntrackedCounterIsZero | scripts/extract_hdf5_counters.py:124-177 | An output counter that neither module sums is always written as 0.0. |
| Hdf5Extract.Cli | scripts/extract_hdf5_counters.py:181-225 | It has the same exit cases as the POSIX extractor. Otherwise it writes the one row under this script's fixed header. |
| Cartesian.ProductLength | scripts/ior_configurations_generator.py:19-32 | The number of combinations is the product of the list lengths. |
| Cartesian.Decode | scripts/ior_configurations_generator.py:49-63 | Reading n as a mixed-radix numeral picks, at each position, a value from that position's list. |
| Cartesian.ProductIndex | scripts/ior_configurations_generator.py:49-63 | Position n of the enumeration is the combination that n encodes in mixed radix, with the last list varying fastest. |
| Cartesian.ProductMembers | scripts/ior_configurations_generator.py:49-62 | The enumeration holds exactly the sequences that take one value from each list. |
| Cartesian.ProductDistinct | scripts/ior_configurations_generator.py:49-62 | When no list repeats a value, no combination appears twice. |
| ConfigSweep.Sweep | scripts/ior_configurations_generator.py:35-77 | One header row, then one row per combination: exactly as many rows as the product of the list lengths. |
| ConfigSweep.ConfigIdSpec | scripts/ior_configurations_generator.py:65 | An id up to the total is exactly as wide as the total's numeral, all digits, and reads back as its number. |
| ConfigSweep.RowSpec | scripts/ior_configurations_generator.py:63-75 | Row n+1 has 14 cells: id n+1, padded; "test" plus the id; then the combination that n encodes. |
| ConfigSweep.IdsDistinct | scripts/ior_configurations_generator.py:48-77 | No two rows share an id. |
| ConfigSweep.RowsCoverCombinations | scripts/ior_configurations_generator.py:49-76 | The parameter cells of the rows are the enumeration in order. They contain every valid combination and nothing else, and each only once. |
| ConfigSweep.TotalIs | scripts/ior_configurations_generator.py:19-32 | The concrete lists give 20736 combinations. |
| ConfigSweep.PadWidthIs | scripts/ior_configurations_generator.py:33 | The concrete ids are five digits wide. |
| Text.NatToString | scripts/ior_configurations_generator.py:33 | `str(n)` is a non-empty run of digits with no leading zero. |
| Text.NatToStringMonotone | scripts/ior_configurations_generator.py:33 | A larger number never has a shorter numeral, so `pad_width` covers every id up to the total. |
| ConfigSweep.SweepShape | scripts/ior_configurations_generator.py:36-77 | The concrete file has 20737 rows, and every data row has 14 cells like the header. |
| ConfigSweep.FirstRow | scripts/ior_configurations_generator.py:48-66 | The first data row is id 00001 with test file test00001. |
| Text.NatToStringRoundTrip | scripts/ior_configurations_generator.py:65 | `str(n)` reads back as n. |
| Text.ZFillRoundTrip | scripts/ior_configurations_generator.py:65 | A zero-padded numeral is all digits and reads back as the number it pads. |
| Text.ZFill | scripts/ior_configurations_generator.py:65 | `zfill(w)` has length w, or the numeral's own length when that is longer. It ends with the numeral and has only zeros before it. |
| TargetedSweep.AllGroupsChoosable | scripts/ior_configurations_generator_targeted.py:18-46 | Every list any of the eight groups draws from is non-empty, so no draw fails. |
| TargetedSweep.Pick | scripts/ior_configurations_generator_targeted.py:62-73 | Every draw takes each of the 12 values from the list its column allows: the group's list, its override, or the default. |
| TargetedSweep.BlockOf | scripts/ior_configurations_generator_targeted.py:59-87 | Sample s of group g sits at position g·N + s, which lies in block g. |
| TargetedSweep.Generate | scripts/ior_configurations_generator_targeted.py:56-87 | Each group yields exactly N rows, in group order. Row i has id i+1 and test file "test" plus the id, and its parameters come from group i div N. |
| TargetedSweep.RowIdsDistinct | scripts/ior_configurations_generator_targeted.py:75 | An id reads back as its row number, so no two rows share an id. |
| TargetedSweep.IdWidthHolds | scripts/ior_configurations_generator_targeted.py:75 | Up to 99999 rows, every id is exactly five characters. |
| TargetedSweep.GenerateAll | scripts/ior_configurations_generator_targeted.py:48-87 | The concrete run writes the fixed header and 4000 rows, each from its group of 500, each with a five-character id. |
| TargetedSweep.EdgeGroupPinned | scripts/ior_configurations_generator_targeted.py:32-33 | Every row of group 5 has transfer size 1M, block size 1G, 4 segments and 16 tasks. The segment count 4 is not in the default list. |
| SlurmJob.FlagOn | scripts/generate_and_submit_slurms.py:22-26 | A flag cell fails exactly when `int()` fails on it. It is on exactly when it reads as 1. |
| SlurmJob.FirstBadCell | scripts/generate_and_submit_slurms.py:20-26 | It names the first of the six `int()` cells, in script order, that fails to read, with every earlier one reading. It names none exactly when all six read. |
| SlurmJob.Derive | scripts/generate_and_submit_slurms.py:15-26 | A row fails exactly at its first unreadable integer cell. Otherwise the job carries the row's texts and integers, and each switch is on exactly when its column reads as 1. |
| SlurmJob.ReadMpirun | scripts/generate_and_submit_slurms.py:50-63 | When the words contain no space, reading the rendered mpirun line gives back the command it was rendered from. |
| SlurmJob.MpirunOfRead | scripts/generate_and_submit_slurms.py:50-63 | A line that reads as a command is exactly that command's rendering. |
| SlurmJob.CommandWords | scripts/generate_and_submit_slurms.py:50-63 | A job's mpirun line splits into its twenty words and reads back as the job's command. |
| SlurmJob.CommandOfRow | scripts/generate_and_submit_slurms.py:20-63 | The rendered command carries the row's task count, api, sizes and test file. Each switch is present exactly when its column reads as 1. |
| SlurmJob.SwitchWords | scripts/generate_and_submit_slurms.py:22-63 | Word 12 is -F when filePerProc is on and empty otherwise; likewise -e, --mpiio.useStridedDatatype and --posix.odirect. -a, -b, -t, -s, -z, -C and -o keep their fixed places. |
| SlurmJob.TaskCountsAgree | scripts/generate_and_submit_slurms.py:38-51 | The `--ntasks` directive carries the same text as the `mpirun -n` argument. |
| SlurmJob.NamesFromRow | scripts/generate_and_submit_slurms.py:28-48 | The file path, the job name and the Darshan log name are built from the row's id and test file. |
| SlurmJob.JobNames | scripts/generate_and_submit_slurms.py:28-48 | The slurm path is generated_slurms/ior_config_ID.slurm. The job name is ior_ID. DARSHAN_LOGFILE is darshan_TESTFILE.darshan. |
| SlurmJob.FileLines | scripts/generate_and_submit_slurms.py:32-65 | `Render` writes the text of `ScriptLines`. Reading that text back line by line gives the script's 19 lines, including the two blank ones, and nothing after the final line end. |
| SlurmJob.IgnoredColumns | scripts/generate_and_submit_slurms.py:14-26 | Changing setAlignment or the stripe columns changes neither the outcome nor the file. |
| SlurmJob.Generate | scripts/generate_and_submit_slurms.py:14-67 | The files are those of the rows in order, up to the first row that fails to read. The failure names that row's column, and no failure means every row got its file. |
| SlurmJob.AllRowsRendered | scripts/generate_and_submit_slurms.py:14-67 | When every row reads, every row gets its file and nothing fails. |
| BenchmarkResults.GlobOfParts | scripts/analyze_benchmark_results.py:23 | `GlobMatch`, the `*_counters_*.csv` pattern: every non-hidden name of the shape text, `_counters_`, text, `.csv` is picked. |
| BenchmarkResults.PartsOfGlob | scripts/analyze_benchmark_results.py:23 | Every picked name has that shape. |
| BenchmarkResults.NamePrefixIsBeforeCounters | scripts/analyze_benchmark_results.py:42 | `NamePrefix`, the replace-then-split prefix: when the name does not contain `_SPLIT_`, it is the text before the first `_counters_`. |
| BenchmarkResults.ParseName | scripts/analyze_benchmark_results.py:42-49 | The benchmark type is always posix, hdf5 or unknown. |
| BenchmarkResults.ParseNameOfParts | scripts/analyze_benchmark_results.py:42-49 | A name config_type..._counters_... gives back config as the configuration. The type is kept when it is posix or hdf5 and becomes unknown otherwise. |
| BenchmarkResults.ParseNameSinglePart | scripts/analyze_benchmark_results.py:44-49 | A prefix without `_` makes both fields "unknown". |
| Text.ReplaceAbsent | scripts/analyze_benchmark_results.py:42 | Replacing a text that does not occur changes nothing. |
| Text.ReplaceSkip | scripts/analyze_benchmark_results.py:42 | When the pattern starts at none of the first k positions, those k characters are copied unchanged and the replacing goes on from there. |
| Text.ReplaceLeading | scripts/analyze_benchmark_results.py:42 | A pattern that opens the text and does not occur in the rest is swapped for the replacement. |
| Text.BeforeFirst | scripts/analyze_benchmark_results.py:42 | `split(sep)[0]` is a prefix without the separator. Unless it is the whole text, the separator follows it. |
| Text.BeforeFirstAt | scripts/analyze_benchmark_results.py:42 | A prefix that the separator follows, with no earlier occurrence, is `split(sep)[0]`. |
| BenchmarkResults.Union | scripts/analyze_benchmark_results.py:51-65 | The resulting columns are the old ones, in order, followed by the new names not already present. No name is repeated. |
| BenchmarkResults.Stamp | scripts/analyze_benchmark_results.py:51-53 | A row gains its file's configuration, type and name. Every other cell is unchanged. |
| BenchmarkResults.StampFrame | scripts/analyze_benchmark_results.py:51-53 | Every row of a file is stamped with that file's origin and name, and no row is added or lost. |
| BenchmarkResults.ConcatSpec | scripts/analyze_benchmark_results.py:65 | `Concat`, the row-wise concatenation: the row count is the sum over the tables, the rows are exactly the tables' rows, and every table's columns are kept. |
| BenchmarkResults.Picked | scripts/analyze_benchmark_results.py:23 | The picked entries are exactly the listed entries whose names match the pattern. |
| BenchmarkResults.Loaded | scripts/analyze_benchmark_results.py:34-58 | The loaded tables are exactly the stamped tables of the picked files that read. There are none exactly when no picked file reads. |
| BenchmarkResults.Subset | scripts/analyze_benchmark_results.py:160 | A group holds exactly the rows with that configuration and that type. |
| BenchmarkResults.Mean | scripts/analyze_benchmark_results.py:166-171 | The mean is missing exactly when there is no number. Otherwise, multiplied by the count, it gives the sum of the numbers. |
| BenchmarkResults.MeanWithin | scripts/analyze_benchmark_results.py:166-171 | A mean lies between any lower and upper bound of the numbers averaged. |
| BenchmarkResults.SummaryRowsAreMeans | scripts/analyze_benchmark_results.py:158-173 | Each summary row covers a non-empty group. It holds the six metric means over that group, or 0 for a metric the table lacks. |
| BenchmarkResults.SummaryPairsDistinct | scripts/analyze_benchmark_results.py:158-173 | No (configuration, type) pair has two summary rows. |
| BenchmarkResults.SummaryCoversGroups | scripts/analyze_benchmark_results.py:158-173 | A pair has a summary row exactly when some row has that configuration and that type. |
| BenchmarkResults.SummaryOrder | scripts/analyze_benchmark_results.py:158-173 | Summary rows come in the nested loops' order. Configurations come in order of first appearance. Within one configuration, types come in order of first appearance. |
| Cartesian.PairOrder | scripts/analyze_benchmark_results.py:158-159 | Over two lists, an earlier position of the enumeration pairs an earlier entry of the outer list, or the same outer entry with an earlier inner one. |
| Seqs.Unique | scripts/analyze_benchmark_results.py:158-159 | `unique()` has no repeats and the same elements as its input, in order of first appearance. |
| BenchmarkResults.Analyze | scripts/analyze_benchmark_results.py:23-72 | It stops before any output when no file matches, or when no matching file loads. Otherwise it summarises the concatenation of the loaded tables. |
| BenchmarkResults.AnalyzedRows | scripts/analyze_benchmark_results.py:34-65 | Every combined row is a row of a picked, loaded file, stamped with that file's origin and name. The row count is the sum over the loaded files. |
| BenchmarkResults.Cli | scripts/analyze_benchmark_results.py:185-196 | It fails with a usage error unless given exactly one argument, and fails on a missing directory. Otherwise it runs the analysis. |
| Tables.ColumnValues | scripts/analyze_benchmark_results.py:158-159 | `unique()` lists each value of the column once and only values that occur. They come in order of first appearance: an earlier value occurs in some row before the first row holding a later one. |
| CsvCoverage.WithPrefix | scripts/analyze_csv_data.py:51-52 | It selects exactly the columns with the prefix, and keeps them distinct when the columns are. |
| CsvCoverage.WithPrefixOrder | scripts/analyze_csv_data.py:51-52 | The selection keeps column order: selecting from two blocks of columns is selecting from each in turn. |
| CsvCoverage.PrefixesDisjoint | scripts/analyze_csv_data.py:51-52 | No column is both a POSIX and a Lustre counter. |
| CsvCoverage.NonZeroCount | scripts/analyze_csv_data.py:60 | The count lies between 0 and the row count. It is 0 exactly when every cell is zero, and full exactly when none is. |
| CsvCoverage.Percent | scripts/analyze_csv_data.py:61 | The percentage times the total is 100 times the count. It lies in [0, 100], and is 100 exactly when every row counts. |
| CsvCoverage.CoverageEntry | scripts/analyze_csv_data.py:59-65 | A coverage entry holds the column's non-zero count and that count as a percentage of the rows. |
| CsvCoverage.CoverageOf | scripts/analyze_csv_data.py:58-65 | There is one coverage entry per POSIX column, in column order, each correct for its column. |
| CsvCoverage.CompleteMeans | scripts/analyze_csv_data.py:83 | A row is complete exactly when every required counter the table has is non-zero. Absent counters impose nothing. |
| CsvCoverage.CompleteEntries | scripts/analyze_csv_data.py:81-85 | The loop counts exactly the complete rows, never more than the rows. |
| CsvCoverage.CompleteBelowCoverage | scripts/analyze_csv_data.py:76-85 | No present required counter covers fewer rows than there are complete rows. |
| CsvCoverage.MissingCells | scripts/analyze_csv_data.py:36-44 | The number of empty cells is at most columns × rows, and 0 exactly when no cell is empty. |
| CsvCoverage.KeyPosixCounters | scripts/analyze_csv_data.py:126-127 | It keeps the first min(15, n) of the n key columns, in column order. So it keeps all of them when there are no more than 15, and exactly 15 otherwise. |
| CsvCoverage.BarCounters | scripts/analyze_csv_data.py:173-177 | The bars are for exactly the required counters the table has. |
| CsvCoverage.RequiredLabels | scripts/analyze_csv_data.py:173-180 | Each required counter is `POSIX_` followed by its label, and removing the prefix gives the label. |
| CsvCoverage.Bar | scripts/analyze_csv_data.py:176-180 | A bar's label with `POSIX_` put back is its counter. Its height is that counter's coverage. |
| CsvCoverage.Bars | scripts/analyze_csv_data.py:170-180 | There is one bar per present required counter, in list order, at that counter's coverage. |
| CsvCoverage.BarsMatchCoverage | scripts/analyze_csv_data.py:176-180 | Every bar shows the percentage that the coverage table holds for its counter. |
| CsvCoverage.ReportOf | scripts/analyze_csv_data.py:81-114 | The report holds the row count, the complete-row count (no more than the rows), its percentage, the coverage entries and the number of empty cells. |
| CsvCoverage.Analyze | scripts/analyze_csv_data.py:22-114 | The result is None exactly when the table does not load. An empty table raises ZeroDivisionError at the complete percentage. Otherwise the result is the report. |
| CsvCoverage.Cli | scripts/analyze_csv_data.py:204-216 | It fails with a usage error unless given exactly one argument, and fails on a missing file. Otherwise it runs the analysis. |
| Diversity.FreqPositive | scripts/test_script.py:13 | A value some row holds has a count of at least one. |
| Diversity.Frequencies | scripts/test_script.py:13 | The counter has an entry for exactly the values that occur in the column. Each entry is the number of rows holding that value, and at least 1. |
| Diversity.FreqTotalCounts | scripts/test_script.py:13 | For distinct values, their counts add up to the number of rows holding one of them. |
| Diversity.FrequenciesSum | scripts/test_script.py:13 | In every column, the counts of the values add up to the row count. |
| Diversity.Inverse | scripts/test_script.py:21 | The term 1/n lies in (0, 1] and is 1 exactly when the count is 1. |
| Diversity.ScoreOver | scripts/test_script.py:16-22 | A score over k columns lies in [0, k], and is positive when k > 0. |
| Diversity.Score | scripts/test_script.py:16-22 | Every row's score lies in (0, 12]. |
| Diversity.ScoreMax | scripts/test_script.py:16-22 | A row scores 12 exactly when each of its twelve values is unique in its column. |
| Diversity.ScoreAll | scripts/test_script.py:25 | Each row keeps its place and gets its own score. |
| Diversity.Ranked | scripts/test_script.py:28 | The ranking is a permutation of the scored rows, with scores non-increasing. |
| Diversity.Top | scripts/test_script.py:32 | The top holds the first min(10, n) ranked rows. |
| Diversity.TopIsBest | scripts/test_script.py:28-32 | Every row shown scores at least as high as every row left out. |
| Diversity.RankingKeepsRows | scripts/test_script.py:25-28 | The ranking has as many rows as the table. Each ranked entry is a table row with that row's score. |
| Diversity.Run | scripts/test_script.py:8-32 | A missing scored column raises its KeyError first. Otherwise a table with no rows fails to store the scores. Otherwise a missing id column raises its KeyError. Otherwise the top ten of the ranking are shown. |
| SortByTag.Partition | scripts/sort_by_tag.py:18 | The rows split into those with a numeric tag and the rest, losing none. |
| SortByTag.SortedByTag | scripts/sort_by_tag.py:18 | The sort gives the same rows, as a multiset. Numeric tags come first in ascending order, and empty tags come last. |
| SortByTag.Project | scripts/sort_by_tag.py:21 | A projected row has exactly test_id and tag, with the input row's values. |
| SortByTag.Run | scripts/sort_by_tag.py:14-21 | It raises exactly when tag or test_id is missing. Otherwise it writes the columns test_id then tag, with the sorted projected rows. |
| SortByTag.RunSpec | scripts/sort_by_tag.py:18-21 | The output holds every input row's (test_id, tag) pair, as often as the input does, in ascending tag order. |

## Left out

- Running darshan-parser is not modelled. Its output is given as text (or lines), or as `None` for a failed run, because it is an external process.
- `os.walk`, `glob`, `os.path.exists`, `open`, `csv`, and `pandas.read_csv` / `to_csv` are not modelled. Directory listings, existence tests and loaded tables are given as values, because they are file-system I/O.
- Python's `int()` and `float()` grammars are not modelled. They are the `NumberSyntax` parameter, because their exact syntax (signs, underscores, `inf`, `nan`) does not affect any property stated here.
- `math.log10` is a parameter `real -> real`, because it is transcendental floating point.
- Floating-point rounding is not modelled. Counter sums, means, percentages, the tag and the diversity score are exact reals.
- `sbatch` submission and the deletion of each batch file (generate_and_submit_slurms.py:70-74) are not modelled, because they are external side effects.
- The min/max/mean/std printout and the missing-value percentages (analyze_csv_data.py:37-42, 94-103) are not modelled, because they only print. The missing-value total at line 44 is modelled.
- `create_visualizations` is not modelled. It is called at analyze_csv_data.py:106, before the report is returned, and draws its plots with matplotlib and seaborn. It saves them under a fixed absolute path (lines 142, 165, 200), and a failed save there would end the run before the report. The model covers the bar data and the key columns it selects (`CsvCoverage.Bars`, `CsvCoverage.KeyPosixCounters`), but not the drawing or the file writes.
- The summary text file and the console messages are not modelled, because they are output only.
- The normalizers `normalize_counters_log.py`, `normalize_counters_log_scaled_tag.py` and `normalize_counters_l2.py`, and the plot scripts `plot_histograms_advanced.py` and `plot_correlation_heatmap.py`, are not part of this model. They are floating-point transforms and rendering.
- `convert_darshan_to_csv.py` is not part of this model, because it wraps the pydarshan report API, whose code is not available.
- `test_aggregate_darshan.py` is not part of this model, because it calls a module that is not available.
- PosixExtract.DigitRun: `\d` is read as the ASCII digits 0-9. Python's `\d` on a text pattern, and `int()`, also accept other Unicode decimal digits; darshan-parser prints ASCII numerals. `MatchPos`, `SearchFrom` and `FindNprocs` inherit this.
- TargetedSweep.Pick: `random.choice` is an arbitrary choice from the allowed list, so nothing is said about the distribution.
- Sorting.SortBy: pandas' default sort is not stable, so the contracts fix only what every outcome shares: sorted order and the same rows. Insertion sort stands in for it.
- SlurmJob.Derive: cells arrive as the text pandas hands over. pandas' type inference (it would read `config_id` "00001" as the integer 1) is left to the caller's choice of cell text.
- BenchmarkResults.Mean: it averages the numeric cells and skips text cells, where pandas would raise on a column mixing text and numbers.
- SortByTag.SortedByTag: text tags are placed with the empty ones at the end, where pandas would compare them as strings. Counter tables carry numeric tags.
- Diversity.Frequencies: an empty cell is one value, equal to itself. Python's NaN is not equal to itself, so a column with empty cells would behave differently. The sampled table has none.
- DarshanScript.AgreesWithDirectoryParser: the lemma covers files whose every line ends with a newline. The model reads a final line without one by the same rules.
- DarshanScript.Extract: a missing input file (`open` raising) is not an outcome, because the file's lines are given.
- CsvCoverage.Analyze: the per-column coverage on an empty table (a NumPy 0/0, which warns rather than raising) is not modelled. The run stops at the complete percentage either way.
- The `.darshan` suffix filter in `DarshanDir.ParseDir` applies to the given file names. Path joining is not modelled.
