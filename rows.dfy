/** How every script reads a line of a split file: strip the surrounding
    whitespace, skip the line if nothing is left, otherwise cut it at tabs. */
module Rows {
  import opened Wrappers
  import opened Text

  /** `raw_line.strip()` is empty. */
  predicate IsBlank(raw: string)
  {
    Strip(raw) == ""
  }

  /** `raw_line.strip().split("\t")`. */
  function Columns(raw: string): (cols: seq<string>)
    ensures |cols| >= 1 && Join(cols, '\t') == Strip(raw)
    ensures forall i :: 0 <= i < |cols| ==> '\t' !in cols[i]
  {
    Split(Strip(raw), '\t')
  }

  /** The columns of a line that the scripts treat as a triple: `None` for a
      blank line and for one with fewer than three columns. */
  function TripleColumns(raw: string): (r: Option<seq<string>>)
    ensures r.Some? <==> !IsBlank(raw) && |Columns(raw)| >= 3
    ensures r.Some? ==> |r.value| >= 3 && Join(r.value, '\t') == Strip(raw)
  {
    if IsBlank(raw) then None
    else
      var cols := Columns(raw);
      if |cols| < 3 then None else Some(cols)
  }

  /** The triple lines of a file, in file order, each as its columns. */
  function KeptRows(lines: seq<string>): (rows: seq<seq<string>>)
    ensures |rows| <= |lines|
    ensures forall i :: 0 <= i < |rows| ==> |rows[i]| >= 3
    decreases |lines|
  {
    if lines == [] then []
    else
      var rest := KeptRows(lines[..|lines| - 1]);
      match TripleColumns(lines[|lines| - 1])
      case None => rest
      case Some(cols) => rest + [cols]
  }

  /** A line made of tab-joined tab-free cells with at least three cells and
      no whitespace at either end is read back as exactly those cells. */
  lemma TripleColumnsOfJoin(cells: seq<string>)
    requires |cells| >= 3
    requires forall i :: 0 <= i < |cells| ==> '\t' !in cells[i]
    requires Strip(Join(cells, '\t')) == Join(cells, '\t')
    ensures TripleColumns(Join(cells, '\t')) == Some(cells)
  {
    var line := Join(cells, '\t');
    SplitJoin(cells, '\t');
    assert line != "" by {
      assert |line| >= 2 by { JoinLength(cells, '\t'); }
    }
    StrippedColumns(line);
  }

  /** A line with no surrounding whitespace is cut as it stands. */
  lemma StrippedColumns(line: string)
    requires line != "" && Strip(line) == line
    ensures TripleColumns(line) == if |Split(line, '\t')| >= 3 then Some(Split(line, '\t')) else None
  {
  }

  lemma {:induction false} JoinLength(parts: seq<string>, sep: char)
    requires |parts| >= 1
    ensures |Join(parts, sep)| >= |parts| - 1
    decreases |parts|
  {
    if |parts| > 1 {
      JoinLength(parts[1..], sep);
    }
  }
}
