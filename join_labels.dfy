/** `join_entity_labels.py`: load an identifier-to-label mapping and add
    a subject label and an object label to every triple row of a dataset
    split. Rows are read by splitting each line at the delimiter, as
    `csv.reader` does for lines without quote characters; the
    `unicode_escape` decoder of the delimiter argument is a parameter. */
module JoinLabels {
  import opened Wrappers
  import opened Text
  import opened Paths
  import opened LabelMapping

  // ---------------------------------------------------------------------
  // The delimiter.

  /** `resolve_delimiter(delimiter)`: a one-character argument is used as
      it is; anything else is decoded (`None` standing for a
      `UnicodeDecodeError`, after which the raw argument is kept) and must
      come out as exactly one character. */
  function ResolveDelimiter(delimiter: string, decode: string -> Option<string>): (r: Result<char, string>)
    ensures |delimiter| == 1 ==> r == Success(delimiter[0])
    ensures |delimiter| != 1 && decode(delimiter).Some? ==>
      (r.Success? <==> |decode(delimiter).value| == 1) && (r.Success? ==> r.value == decode(delimiter).value[0])
    ensures |delimiter| != 1 && decode(delimiter).None? ==> r.Failure?
    ensures r.Failure? ==> r.error == delimiter
  {
    if |delimiter| == 1 then Success(delimiter[0])
    else
      var decoded := match decode(delimiter) case Some(s) => s case None => delimiter;
      if |decoded| != 1 then Failure(delimiter) else Success(decoded[0])
  }

  // ---------------------------------------------------------------------
  // Reading rows.

  /** One line as `csv.reader` returns it when the line holds no quote
      character: no cells for an empty line, otherwise the pieces between
      delimiters. */
  function CsvRow(line: string, d: char): (row: seq<string>)
    ensures line == "" <==> row == []
    ensures row != [] ==> Join(row, d) == line
  {
    if line == "" then [] else
      SplitJoin(Split(line, d), d);
      Split(line, d)
  }

  /** Cells without the delimiter, not just one empty cell, are read back
      from their joined line. */
  lemma CsvRowJoin(cells: seq<string>, d: char)
    requires cells != [] && cells != [""]
    requires forall i :: 0 <= i < |cells| ==> d !in cells[i]
    ensures CsvRow(Join(cells, d), d) == cells
  {
    SplitJoin(cells, d);
    if Join(cells, d) == "" {
      JoinEmpty(cells, d);
    }
  }

  /** Only the single empty cell joins to the empty line. */
  lemma JoinEmpty(cells: seq<string>, d: char)
    requires cells != [] && Join(cells, d) == ""
    ensures cells == [""]
  {
  }

  // ---------------------------------------------------------------------
  // The mapping.

  /** What one mapping row contributes: nothing for an empty row or an
      empty stripped key, else the stripped key and the stripped second
      cell, `""` when there is none. */
  function RowEntry(row: seq<string>): (e: Option<(string, string)>)
    ensures e.Some? <==> row != [] && Strip(row[0]) != ""
    ensures e.Some? ==> e.value.0 == Strip(row[0])
    ensures e.Some? ==> e.value.1 == if |row| > 1 then Strip(row[1]) else ""
  {
    if row == [] then None
    else
      var key := Strip(row[0]);
      if key == "" then None
      else Some((key, if |row| > 1 then Strip(row[1]) else ""))
  }

  /** The dictionary that assigning the entries `es` in order builds:
      `d[key] = label` for each present entry, so later entries win. */
  function Assign(es: seq<Option<(string, string)>>): map<string, string>
    decreases |es|
  {
    if es == [] then map[]
    else
      var m := Assign(es[..|es| - 1]);
      match es[|es| - 1]
      case None => m
      case Some(entry) => m[entry.0 := entry.1]
  }

  /** The keys are exactly the keys of the present entries. */
  lemma {:induction false} AssignDomain(es: seq<Option<(string, string)>>)
    ensures forall k :: k in Assign(es) <==> exists i :: 0 <= i < |es| && es[i].Some? && es[i].value.0 == k
    decreases |es|
  {
    if es != [] {
      var init := es[..|es| - 1];
      AssignDomain(init);
      forall k ensures k in Assign(es) <==> exists i :: 0 <= i < |es| && es[i].Some? && es[i].value.0 == k {
        if k in Assign(init) {
          var i :| 0 <= i < |init| && init[i].Some? && init[i].value.0 == k;
          assert es[i] == init[i];
        }
        if exists i :: 0 <= i < |es| && es[i].Some? && es[i].value.0 == k {
          var i :| 0 <= i < |es| && es[i].Some? && es[i].value.0 == k;
          if i < |init| { assert init[i] == es[i]; }
        }
      }
    }
  }

  /** A key gets the label of the last entry holding it. */
  lemma {:induction false} AssignLastWins(es: seq<Option<(string, string)>>, i: nat)
    requires i < |es| && es[i].Some?
    requires forall j :: i < j < |es| && es[j].Some? ==> es[j].value.0 != es[i].value.0
    ensures es[i].value.0 in Assign(es) && Assign(es)[es[i].value.0] == es[i].value.1
    decreases |es|
  {
    var init := es[..|es| - 1];
    if i < |init| {
      assert forall j :: i < j < |init| ==> init[j] == es[j];
      assert init[i] == es[i];
      AssignLastWins(init, i);
    }
  }

  /** The entries of the mapping rows. */
  function Entries(rows: seq<seq<string>>): (es: seq<Option<(string, string)>>)
    ensures |es| == |rows|
    ensures forall i :: 0 <= i < |rows| ==> es[i] == RowEntry(rows[i])
  {
    seq(|rows|, i requires 0 <= i < |rows| => RowEntry(rows[i]))
  }

  /** The dictionary `load_mapping` builds from the rows, in order. */
  function MappingOf(rows: seq<seq<string>>): map<string, string>
  {
    Assign(Entries(rows))
  }

  /** The keys are exactly the stripped, non-empty first cells. */
  lemma MappingDomain(rows: seq<seq<string>>)
    ensures forall k :: k in MappingOf(rows) <==>
      exists i :: 0 <= i < |rows| && RowEntry(rows[i]).Some? && RowEntry(rows[i]).value.0 == k
  {
    AssignDomain(Entries(rows));
  }

  /** For a duplicated key the last row holding it decides the label. */
  lemma MappingLastWins(rows: seq<seq<string>>, i: nat)
    requires i < |rows| && RowEntry(rows[i]).Some?
    requires forall j :: i < j < |rows| && RowEntry(rows[j]).Some? ==> RowEntry(rows[j]).value.0 != RowEntry(rows[i]).value.0
    ensures RowEntry(rows[i]).value.0 in MappingOf(rows)
    ensures MappingOf(rows)[RowEntry(rows[i]).value.0] == RowEntry(rows[i]).value.1
  {
    AssignLastWins(Entries(rows), i);
  }

  /** Every stored pair comes from one of the entries. */
  lemma {:induction false} AssignValues(es: seq<Option<(string, string)>>)
    ensures forall k :: k in Assign(es) ==> exists i :: 0 <= i < |es| && es[i] == Some((k, Assign(es)[k]))
    decreases |es|
  {
    if es != [] {
      var init := es[..|es| - 1];
      AssignValues(init);
      forall k | k in Assign(es) ensures exists i :: 0 <= i < |es| && es[i] == Some((k, Assign(es)[k])) {
        if es[|es| - 1].Some? && es[|es| - 1].value.0 == k {
          assert es[|es| - 1] == Some((k, Assign(es)[k]));
        } else {
          var i :| 0 <= i < |init| && init[i] == Some((k, Assign(init)[k]));
          assert es[i] == init[i];
        }
      }
    }
  }

  /** Keys and labels are stored stripped. */
  lemma MappingStripped(rows: seq<seq<string>>)
    ensures forall k :: k in MappingOf(rows) ==> k != "" && Strip(k) == k && Strip(MappingOf(rows)[k]) == MappingOf(rows)[k]
  {
    var es := Entries(rows);
    AssignValues(es);
    forall k | k in MappingOf(rows) ensures k != "" && Strip(k) == k && Strip(MappingOf(rows)[k]) == MappingOf(rows)[k] {
      var i :| 0 <= i < |es| && es[i] == Some((k, Assign(es)[k]));
      RowEntryStripped(rows[i]);
    }
  }

  /** A row's entry is stripped already. */
  lemma RowEntryStripped(row: seq<string>)
    ensures RowEntry(row).Some? ==> var e := RowEntry(row).value;
      e.0 != "" && Strip(e.0) == e.0 && Strip(e.1) == e.1
  {
    if RowEntry(row).Some? {
      StripIdempotent(row[0], Whitespace);
      if |row| > 1 { StripIdempotent(row[1], Whitespace); } else { StripCharsEmpty(Whitespace); }
    }
  }

  /** `load_mapping(mapping_path, delimiter)` over the lines of the file. */
  method LoadMapping(lines: seq<string>, d: char) returns (mapping: map<string, string>)
    ensures mapping == MappingOf(RowsOf(lines, d))
  {
    mapping := map[];
    for i := 0 to |lines|
      invariant mapping == MappingOf(RowsOf(lines[..i], d))
    {
      RowsOfStep(lines, i, d);
      var row := CsvRow(lines[i], d);
      MappingSnoc(RowsOf(lines[..i], d), row);
      if row == [] {
        continue;
      }
      var key := Strip(row[0]);
      if key == "" {
        continue;
      }
      var text := if |row| > 1 then Strip(row[1]) else "";
      mapping := mapping[key := text];
    }
    assert lines[..|lines|] == lines;
  }

  /** One more row updates the dictionary the way the loop body does. */
  lemma MappingSnoc(rows: seq<seq<string>>, row: seq<string>)
    ensures MappingOf(rows + [row]) ==
      if RowEntry(row).Some? then MappingOf(rows)[RowEntry(row).value.0 := RowEntry(row).value.1] else MappingOf(rows)
  {
    var es := Entries(rows + [row]);
    assert es[..|es| - 1] == Entries(rows);
  }

  /** The rows of a file's lines. */
  function RowsOf(lines: seq<string>, d: char): (rows: seq<seq<string>>)
    ensures |rows| == |lines|
    ensures forall i :: 0 <= i < |lines| ==> rows[i] == CsvRow(lines[i], d)
  {
    seq(|lines|, i requires 0 <= i < |lines| => CsvRow(lines[i], d))
  }

  lemma RowsOfStep(lines: seq<string>, i: nat, d: char)
    requires i < |lines|
    ensures RowsOf(lines[..i + 1], d) == RowsOf(lines[..i], d) + [CsvRow(lines[i], d)]
    ensures RowsOf(lines[..i + 1], d)[..i] == RowsOf(lines[..i], d)
  {
  }

  /** The file `build_wikidata_label_mapping.py` writes loads back as the
      same mapping, when no identifier is empty and no identifier or label
      holds a tab or surrounding whitespace. */
  lemma RenderLoadRoundTrip(m: map<string, string>)
    requires forall k :: k in m ==> k != "" && Strip(k) == k && '\t' !in k
    requires forall k :: k in m ==> Strip(m[k]) == m[k] && '\t' !in m[k]
    ensures MappingOf(RowsOf(FileLines(RenderMapping(m)), '\t')) == m
  {
    RenderedEntries(m);
    AssignListed(Entries(RowsOf(FileLines(RenderMapping(m)), '\t')), SortedElements(m.Keys), m);
  }

  /** The entries of the rows read back from the mapping file. */
  lemma RenderedEntries(m: map<string, string>)
    requires forall k :: k in m ==> k != "" && Strip(k) == k && '\t' !in k
    requires forall k :: k in m ==> Strip(m[k]) == m[k] && '\t' !in m[k]
    ensures |Entries(RowsOf(FileLines(RenderMapping(m)), '\t'))| == |SortedElements(m.Keys)|
    ensures forall i :: 0 <= i < |SortedElements(m.Keys)| ==>
      && SortedElements(m.Keys)[i] in m
      && Entries(RowsOf(FileLines(RenderMapping(m)), '\t'))[i] == Some((SortedElements(m.Keys)[i], m[SortedElements(m.Keys)[i]]))
  {
    RenderedRows(m);
  }

  /** Entries that list each key of `m` once, with its value, assign `m`. */
  lemma AssignListed(es: seq<Option<(string, string)>>, ids: seq<string>, m: map<string, string>)
    requires |es| == |ids| && Distinct(ids)
    requires forall x :: x in ids <==> x in m.Keys
    requires forall i :: 0 <= i < |ids| ==> ids[i] in m && es[i] == Some((ids[i], m[ids[i]]))
    ensures Assign(es) == m
  {
    AssignDomain(es);
    forall k | k in m ensures k in Assign(es) && Assign(es)[k] == m[k] {
      var i :| 0 <= i < |ids| && ids[i] == k;
      AssignLastWins(es, i);
    }
    forall k | k in Assign(es) ensures k in m {
      var i :| 0 <= i < |es| && es[i].Some? && es[i].value.0 == k;
      assert ids[i] == k;
    }
  }

  /** The rows read back from the mapping file are `[id, label]`, one per
      identifier, ascending. */
  lemma RenderedRows(m: map<string, string>)
    requires forall k :: k in m ==> k != "" && Strip(k) == k && '\t' !in k
    requires forall k :: k in m ==> Strip(m[k]) == m[k] && '\t' !in m[k]
    ensures |RowsOf(FileLines(RenderMapping(m)), '\t')| == |SortedElements(m.Keys)|
    ensures forall i :: 0 <= i < |m| ==>
      && SortedElements(m.Keys)[i] in m
      && RowEntry(RowsOf(FileLines(RenderMapping(m)), '\t')[i]) == Some((SortedElements(m.Keys)[i], m[SortedElements(m.Keys)[i]]))
  {
    forall i | 0 <= i < |m| ensures SortedElements(m.Keys)[i] in m && RowEntry(RowsOf(FileLines(RenderMapping(m)), '\t')[i]) ==
      Some((SortedElements(m.Keys)[i], m[SortedElements(m.Keys)[i]]))
    {
      RenderedRow(m, i);
    }
  }

  /** Row `i` read back from the mapping file. */
  lemma RenderedRow(m: map<string, string>, i: nat)
    requires forall k :: k in m ==> k != "" && Strip(k) == k && '\t' !in k
    requires forall k :: k in m ==> Strip(m[k]) == m[k] && '\t' !in m[k]
    requires i < |m|
    ensures var ids := SortedElements(m.Keys);
      ids[i] in m && RowEntry(RowsOf(FileLines(RenderMapping(m)), '\t')[i]) == Some((ids[i], m[ids[i]]))
  {
    var ids := SortedElements(m.Keys);
    RenderedLine(m, i);
    var line := FileLines(RenderMapping(m))[i];
    EntryOfLine(line, ids[i], m[ids[i]]);
  }

  /** Line `i` of the mapping file, as read back. */
  lemma RenderedLine(m: map<string, string>, i: nat)
    requires i < |m|
    ensures var ids := SortedElements(m.Keys);
      ids[i] in m && FileLines(RenderMapping(m))[i] == ids[i] + "\t" + m[ids[i]]
  {
    var ids := SortedElements(m.Keys);
    assert ids[i] in m;
    var line := ids[i] + "\t" + m[ids[i]];
    assert RenderMapping(m)[i] == line + "\n";
    assert (line + "\n")[..|line|] == line;
  }

  /** One written line reads back as its identifier and label. */
  lemma EntryOfLine(line: string, id: string, text: string)
    requires line == id + "\t" + text
    requires id != "" && Strip(id) == id && '\t' !in id
    requires Strip(text) == text && '\t' !in text
    ensures RowEntry(CsvRow(line, '\t')) == Some((id, text))
  {
    TwoCells(line, id, text, '\t');
  }

  /** Two cells without the delimiter, joined by it, read back as those
      two cells. */
  lemma TwoCells(line: string, a: string, b: string, d: char)
    requires line == a + [d] + b
    requires d !in a && d !in b
    ensures CsvRow(line, d) == [a, b]
  {
    var cells := [a, b];
    assert |cells| == 2 && cells[0] == a && cells[1] == b;
    assert Join(cells, d) == line by {
      assert cells[1..] == [b];
      assert Join([b], d) == b;
    }
    CsvRowJoin(cells, d);
  }

  /** The lines of a written file as the reader hands them over: without
      their line terminator. */
  function FileLines(written: seq<string>): (lines: seq<string>)
    ensures |lines| == |written|
    ensures forall i :: 0 <= i < |written| ==>
      lines[i] == if written[i] != "" && written[i][|written[i]| - 1] == '\n' then written[i][..|written[i]| - 1] else written[i]
  {
    seq(|written|, i requires 0 <= i < |written| =>
      if written[i] != "" && written[i][|written[i]| - 1] == '\n' then written[i][..|written[i]| - 1] else written[i])
  }

  // ---------------------------------------------------------------------
  // Rewriting rows.

  /** `mapping.get(key, missing_value)`. */
  function LabelOf(mapping: map<string, string>, key: string, missing: string): string
  {
    if key in mapping then mapping[key] else missing
  }

  /** The row `attach_labels` writes for `row`: rows of fewer than three
      cells unchanged, others with the subject's and the object's label
      after the object. */
  function AttachRow(row: seq<string>, mapping: map<string, string>, missing: string): (out: seq<string>)
    ensures |row| < 3 ==> out == row
    ensures |row| >= 3 ==> |out| == |row| + 2 && out[..3] == row[..3] && out[5..] == row[3..]
    ensures |row| >= 3 ==> out[3] == LabelOf(mapping, row[0], missing) && out[4] == LabelOf(mapping, row[2], missing)
  {
    if |row| < 3 then row
    else [row[0], row[1], row[2], LabelOf(mapping, row[0], missing), LabelOf(mapping, row[2], missing)] + row[3..]
  }

  /** The original row with the two label cells taken out again. */
  function DropLabels(out: seq<string>, width: nat): seq<string>
    requires width < 3 || |out| >= 5
  {
    if width < 3 then out else out[..3] + out[5..]
  }

  /** Taking the label cells out gives back the row read: the original
      cells keep their order. */
  lemma AttachRowInverse(row: seq<string>, mapping: map<string, string>, missing: string)
    ensures DropLabels(AttachRow(row, mapping, missing), |row|) == row
  {
    if |row| >= 3 {
      assert row == row[..3] + row[3..];
    }
  }

  /** The loop of `attach_labels`: every row rewritten, in order. */
  method AttachLabels(rows: seq<seq<string>>, mapping: map<string, string>, missing: string)
    returns (written: seq<seq<string>>)
    ensures |written| == |rows|
    ensures forall i :: 0 <= i < |rows| ==> written[i] == AttachRow(rows[i], mapping, missing)
  {
    written := [];
    for i := 0 to |rows|
      invariant |written| == i
      invariant forall j :: 0 <= j < i ==> written[j] == AttachRow(rows[j], mapping, missing)
    {
      var row := rows[i];
      if |row| < 3 {
        written := written + [row];
        continue;
      }
      var subj, rel, obj, rest := row[0], row[1], row[2], row[3..];
      var subjLabel := LabelOf(mapping, subj, missing);
      var objLabel := LabelOf(mapping, obj, missing);
      written := written + [[subj, rel, obj, subjLabel, objLabel] + rest];
    }
  }

  /** Without `--output` the output file is the dataset file's name with
      `.labeled` after its suffix: `dataset_path.with_suffix(suffix +
      ".labeled")`, which fails on an empty name. */
  function DefaultOutput(name: string): (r: Option<string>)
    requires '/' !in name
    ensures name == "" <==> r.None?
    ensures r.Some? ==> r.value == name + ".labeled"
  {
    LabeledSuffix(name);
    var suffix := Suffix(name) + ".labeled";
    WithSuffix(name, suffix)
  }

  /** The suffix `.labeled` is appended to is one `with_suffix` accepts. */
  lemma LabeledSuffix(name: string)
    requires '/' !in name
    ensures '/' !in Suffix(name) + ".labeled"
    ensures (Suffix(name) + ".labeled")[0] == '.' && Suffix(name) + ".labeled" != "."
    ensures Stem(name) + (Suffix(name) + ".labeled") == name + ".labeled"
  {
    StemSuffix(name);
    var suffix := Suffix(name);
    assert forall j :: 0 <= j < |suffix| ==> suffix[j] == name[|Stem(name)| + j];
    assert ".labeled" == ['.', 'l', 'a', 'b', 'e', 'l', 'e', 'd'];
  }

  // ---------------------------------------------------------------------
  // The whole run.

  /** Why the run stops. */
  datatype JoinError = BadDelimiter(given: string) | EmptyMapping | EmptyName

  /** `main`: resolve the delimiter, load the mapping (fatal when empty),
      pick the output name and rewrite the dataset's rows. */
  function JoinRun(delimiter: string, decode: string -> Option<string>, mappingLines: seq<string>,
                   datasetName: string, datasetLines: seq<string>, output: Option<string>, missing: string)
    : (r: Result<(string, seq<seq<string>>), JoinError>)
    requires '/' !in datasetName
    ensures ResolveDelimiter(delimiter, decode).Failure? ==> r == Failure(BadDelimiter(delimiter))
    ensures ResolveDelimiter(delimiter, decode).Success? ==>
      var d := ResolveDelimiter(delimiter, decode).value;
      (MappingOf(RowsOf(mappingLines, d)) == map[] ==> r == Failure(EmptyMapping))
    ensures r.Success? <==>
      && ResolveDelimiter(delimiter, decode).Success?
      && MappingOf(RowsOf(mappingLines, ResolveDelimiter(delimiter, decode).value)) != map[]
      && (output.Some? || datasetName != "")
    ensures r == Failure(EmptyName) ==> output.None? && datasetName == ""
    ensures r.Success? ==>
      var d := ResolveDelimiter(delimiter, decode).value;
      var mapping := MappingOf(RowsOf(mappingLines, d));
      var rows := RowsOf(datasetLines, d);
      && mapping != map[]
      && (output.Some? ==> r.value.0 == output.value)
      && (output.None? ==> r.value.0 == datasetName + ".labeled")
      && |r.value.1| == |datasetLines|
      && forall i :: 0 <= i < |rows| ==> r.value.1[i] == AttachRow(rows[i], mapping, missing)
  {
    match ResolveDelimiter(delimiter, decode)
    case Failure(_) => Failure(BadDelimiter(delimiter))
    case Success(d) =>
      var mapping := MappingOf(RowsOf(mappingLines, d));
      if mapping == map[] then Failure(EmptyMapping)
      else
        var target := if output.Some? then Some(output.value) else DefaultOutput(datasetName);
        if target.None? then Failure(EmptyName)
        else
          var rows := RowsOf(datasetLines, d);
          Success((target.value, seq(|rows|, i requires 0 <= i < |rows| => AttachRow(rows[i], mapping, missing))))
  }
}
