/** The single-log variant, scripts/extract_darshan_to_csv.py: the same
    allow-list, accumulation and records as the directory aggregator, but
    it reads a text file line by line (each line keeping its newline),
    strips every line before splitting it on tabs, and has no guard for an
    empty result. */
module DarshanScript {
  import opened Wrappers
  import opened Text
  import opened Sorting
  import opened DarshanDir

  /** How this script reads a line: the module prefix is tested on the line
      as read, the fields come from the stripped line. */
  function ParseStrippedLine(line: string, num: NumberSyntax): Option<Sample> {
    ReadFields(line, Split(Strip(line), '\t'), num)
  }

  function ScriptReader(num: NumberSyntax): LineReader {
    line => ParseStrippedLine(line, num)
  }

  /** The output path: the second argument when given, else the default. */
  function OutputPath(argv: seq<string>): (path: string)
    ensures |argv| > 2 ==> path == argv[2]
    ensures |argv| <= 2 ==> path == "darshan_parsed_output.csv"
  {
    if |argv| > 2 then argv[2] else "darshan_parsed_output.csv"
  }

  datatype Outcome =
    | MissingInputArgument                 // `sys.argv[1]` raises IndexError
    | NoNprocsColumn                       // an empty DataFrame has no `nprocs` to sort by
    | Saved(path: string, columns: seq<string>, rows: seq<Record>)

  /** A run of the script on the lines of the file named by `argv[1]`. */
  function Extract(argv: seq<string>, lines: seq<string>, num: NumberSyntax): (out: Outcome)
    ensures out.MissingInputArgument? <==> |argv| < 2
    ensures out.NoNprocsColumn? <==> |argv| >= 2 && |Records(lines, ScriptReader(num))| == 0
    ensures out.Saved? ==> out.path == OutputPath(argv) && out.columns == Columns
    ensures out.Saved? ==> SortedBy(out.rows, NprocsKey)
    ensures out.Saved? ==> multiset(out.rows) == multiset(Records(lines, ScriptReader(num)))
  {
    if |argv| < 2 then MissingInputArgument
    else
      var recs := Records(lines, ScriptReader(num));
      if |recs| == 0 then NoNprocsColumn
      else Saved(OutputPath(argv), Columns, SortBy(recs, NprocsKey))
  }

  lemma StartsWithLineEnd(l: string, p: string)
    requires '\n' !in p
    ensures StartsWith(l + "\n", p) <==> StartsWith(l, p)
  {
    if |p| <= |l| {
      assert (l + "\n")[..|p|] == l[..|p|];
    } else if |p| == |l| + 1 {
      assert (l + "\n")[..|p|][|l|] == '\n' && p[|l|] != '\n';
    }
  }

  /** Stripping a line that ends in a newline and has no other surrounding
      whitespace gives back the line without its newline. */
  lemma StripLineEnd(l: string)
    requires |l| > 0 && !IsSpace(l[0]) && !IsSpace(l[|l| - 1])
    ensures Strip(l + "\n") == l
  {
    var s := l + "\n";
    assert s[..|s| - 1] == l;
    assert LStrip(s) == s;
    assert RStrip(s) == RStrip(l);
  }

  /** A line read from the file is the directory aggregator's line plus its
      newline; when no line ends in other whitespace, both readers see the
      same sample. */
  lemma SameSample(l: string, num: NumberSyntax)
    requires |l| == 0 || !IsSpace(l[|l| - 1])
    ensures ParseStrippedLine(l + "\n", num) == ParseLine(l, num)
  {
    StartsWithLineEnd(l, "POSIX");
    StartsWithLineEnd(l, "LUSTRE");
    if IsModuleLine(l) {
      StripLineEnd(l);
    }
  }

  /** The two scripts agree: on a file whose lines carry no trailing
      whitespace before their newline, this script emits exactly the records
      `parse_file` builds from the parser's output. */
  lemma AgreesWithDirectoryParser(lines: seq<string>, num: NumberSyntax)
    requires forall k :: 0 <= k < |lines| ==> |lines[k]| == 0 || !IsSpace(lines[k][|lines[k]| - 1])
    ensures Records(seq(|lines|, k requires 0 <= k < |lines| => lines[k] + "\n"), ScriptReader(num))
         == ParseFile(Some(lines), num)
  {
    var read := seq(|lines|, k requires 0 <= k < |lines| => lines[k] + "\n");
    forall k | 0 <= k < |read|
      ensures ScriptReader(num)(read[k]) == DirReader(num)(lines[k])
    {
      SameSample(lines[k], num);
    }
    ScanSameReadings(read, ScriptReader(num), lines, DirReader(num));
  }
}
