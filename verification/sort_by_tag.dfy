/** scripts/sort_by_tag.py: orders a counter table by its throughput tag,
    lowest first, and keeps only the test id and the tag. pandas places
    rows whose tag is empty (NaN) after all the others. */
module SortByTag {
  import opened Wrappers
  import opened Seqs
  import Tables
  import Sorting

  const TagColumn: string := "tag"
  const IdColumn: string := "test_id"
  const OutputColumns: seq<string> := [IdColumn, TagColumn]
  const MissingColumns: string := "Input CSV must contain 'tag' and 'test_id' columns!"

  predicate HasTag(row: Tables.Row) {
    Tables.Cell(row, TagColumn).Num?
  }

  /** The sort key of a row with a numeric tag. */
  function Tag(row: Tables.Row): real {
    if HasTag(row) then Tables.Cell(row, TagColumn).x else 0.0
  }

  /** The rows with a numeric tag and the others, each in input order. */
  function Partition(rows: seq<Tables.Row>): (parts: (seq<Tables.Row>, seq<Tables.Row>))
    ensures multiset(parts.0) + multiset(parts.1) == multiset(rows)
    ensures forall r :: r in parts.0 ==> HasTag(r)
    ensures forall r :: r in parts.1 ==> !HasTag(r)
    decreases |rows|
  {
    if |rows| == 0 then ([], [])
    else
      var rest := Partition(rows[1..]);
      assert rows == [rows[0]] + rows[1..];
      if HasTag(rows[0]) then ([rows[0]] + rest.0, rest.1) else (rest.0, [rows[0]] + rest.1)
  }

  /** Tagged rows in order followed by untagged ones. */
  predicate TagOrdered(r: seq<Tables.Row>) {
    && (forall i, j :: 0 <= i < j < |r| && HasTag(r[i]) && HasTag(r[j]) ==> Tag(r[i]) <= Tag(r[j]))
    && (forall i, j :: 0 <= i < j < |r| && !HasTag(r[i]) ==> !HasTag(r[j]))
  }

  lemma TaggedFirst(tagged: seq<Tables.Row>, others: seq<Tables.Row>)
    requires Sorting.SortedBy(tagged, Tag)
    requires forall x :: x in tagged ==> HasTag(x)
    requires forall x :: x in others ==> !HasTag(x)
    ensures TagOrdered(tagged + others)
  {
    var r := tagged + others;
    forall i | 0 <= i < |r|
      ensures HasTag(r[i]) <==> i < |tagged|
    {
      if i < |tagged| {
        assert r[i] == tagged[i] && tagged[i] in tagged;
      } else {
        assert r[i] == others[i - |tagged|] && others[i - |tagged|] in others;
      }
    }
    forall i, j | 0 <= i < j < |r| && HasTag(r[i]) && HasTag(r[j])
      ensures Tag(r[i]) <= Tag(r[j])
    {
      assert r[i] == tagged[i] && r[j] == tagged[j];
    }
  }

  /** `df.sort_values(by="tag", ascending=True)`: the same rows, tagged
      ones ascending by tag, then the untagged ones. */
  function SortedByTag(rows: seq<Tables.Row>): (r: seq<Tables.Row>)
    ensures multiset(r) == multiset(rows) && |r| == |rows|
    ensures TagOrdered(r)
  {
    var parts := Partition(rows);
    var tagged := Sorting.SortBy(parts.0, Tag);
    assert forall x :: x in tagged ==> HasTag(x) by {
      forall x | x in tagged
        ensures HasTag(x)
      {
        assert x in multiset(parts.0);
      }
    }
    TaggedFirst(tagged, parts.1);
    assert multiset(tagged + parts.1) == multiset(rows);
    assert |tagged + parts.1| == |multiset(tagged + parts.1)| == |multiset(rows)| == |rows|;
    tagged + parts.1
  }

  /** `[["test_id", "tag"]]` on one row. */
  function Project(row: Tables.Row): (p: Tables.Row)
    ensures p.Keys == {IdColumn, TagColumn}
    ensures Tables.Cell(p, IdColumn) == Tables.Cell(row, IdColumn)
    ensures Tables.Cell(p, TagColumn) == Tables.Cell(row, TagColumn)
  {
    map[IdColumn := Tables.Cell(row, IdColumn), TagColumn := Tables.Cell(row, TagColumn)]
  }

  /** The script: the error it raises when a needed column is absent, or
      the two-column table it writes. */
  function Run(frame: Tables.Frame): (r: Result<Tables.Frame, string>)
    ensures r.Err? <==> TagColumn !in frame.columns || IdColumn !in frame.columns
    ensures r.Err? ==> r.error == MissingColumns
    ensures r.Ok? ==> r.value.columns == OutputColumns && r.value.rows == Map(SortedByTag(frame.rows), Project)
  {
    if TagColumn !in frame.columns || IdColumn !in frame.columns then Err(MissingColumns)
    else Ok(Tables.Frame(OutputColumns, Map(SortedByTag(frame.rows), Project)))
  }

  /** The written table holds the (test id, tag) pair of every input row,
      as often as the input holds it, in ascending tag order with the
      empty tags last. */
  lemma RunSpec(frame: Tables.Frame)
    requires TagColumn in frame.columns && IdColumn in frame.columns
    ensures var out := Run(frame).value.rows;
            && |out| == |frame.rows|
            && multiset(out) == multiset(Map(frame.rows, Project))
            && TagOrdered(out)
  {
    var sorted := SortedByTag(frame.rows);
    MapPermutation(sorted, frame.rows, Project);
    var out := Map(sorted, Project);
    assert forall i :: 0 <= i < |out| ==> HasTag(out[i]) == HasTag(sorted[i]) && Tag(out[i]) == Tag(sorted[i]);
  }
}
