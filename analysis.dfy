/** `analyze(base_dir, top_n, include, per_file)`: every selected dataset
    directory read file by file, each file's record merged into the
    dataset's aggregate, and the summaries collected in dataset order. */
module Analysis {
  import opened Wrappers
  import opened Text
  import opened Paths
  import opened Datasets
  import opened TemporalStats
  import opened StatsMerge
  import opened StatsEngine
  import opened Summaries

  /** The ways `analyze` stops: no dataset folder selected (`SystemExit`),
      or a name ending with `.txt` that is a directory, which `open`
      refuses (`IsADirectoryError`). */
  datatype AnalysisError = NoDatasets | IsADirectory(dataset: string, name: string)

  /** `{"aggregate": ..., "files": ...}` for one dataset; `files` keeps
      the order in which the files were read. */
  datatype DatasetReport = DatasetReport(aggregate: Summary, files: seq<(string, Summary)>)

  /** The names ending with `.txt`, in their order. */
  function KeepTxt(names: seq<string>): (r: seq<string>)
    ensures forall n :: n in r <==> n in names && EndsWithTxt(n)
    ensures |r| <= |names|
    decreases |names|
  {
    if names == [] then []
    else
      var init := KeepTxt(names[..|names| - 1]);
      assert forall n :: n in names <==> n in names[..|names| - 1] || n == names[|names| - 1];
      if EndsWithTxt(names[|names| - 1]) then init + [names[|names| - 1]] else init
  }

  lemma KeepTxtStep(names: seq<string>, i: nat)
    requires i < |names|
    ensures KeepTxt(names[..i + 1]) == KeepTxt(names[..i]) + (if EndsWithTxt(names[i]) then [names[i]] else [])
  {
    assert names[..i + 1][..i] == names[..i];
  }

  /** The files `analyze` reads in a dataset directory, in reading order. */
  function TxtNames(entries: map<string, Node>): (r: seq<string>)
    ensures forall n {:trigger n in r} :: n in r <==> n in entries && EndsWithTxt(n)
  {
    KeepTxt(SortedNames(entries))
  }

  /** Every name in `names` is a file of `entries`. */
  predicate AllFiles(entries: map<string, Node>, names: seq<string>)
  {
    forall i :: 0 <= i < |names| ==> names[i] in entries && entries[names[i]].File?
  }

  /** `name` is the first `.txt` directory the file loop meets in `names`:
      every `.txt` name before it is a file. */
  ghost predicate FirstTxtDir(entries: map<string, Node>, names: seq<string>, name: string)
  {
    exists k :: 0 <= k < |names| && names[k] == name && AllFiles(entries, KeepTxt(names[..k]))
  }

  /** `dataset` is the first selected dataset the run cannot read, and
      `name` the first `.txt` directory in it. */
  ghost predicate FirstFailure(base: map<string, Node>, datasets: seq<string>, dataset: string, name: string)
  {
    exists i :: 0 <= i < |datasets| && datasets[i] == dataset
      && dataset in base && base[dataset].Dir?
      && FirstTxtDir(base[dataset].entries, SortedNames(base[dataset].entries), name)
      && forall j :: 0 <= j < i ==>
           datasets[j] in base && base[datasets[j]].Dir? && AllFiles(base[datasets[j]].entries, TxtNames(base[datasets[j]].entries))
  }

  /** The loop stops at dataset `i` after reading every earlier one. */
  lemma FirstFailureAt(base: map<string, Node>, datasets: seq<string>, i: nat, name: string)
    requires i < |datasets| && datasets[i] in base && base[datasets[i]].Dir?
    requires FirstTxtDir(base[datasets[i]].entries, SortedNames(base[datasets[i]].entries), name)
    requires forall j :: 0 <= j < i ==>
      datasets[j] in base && base[datasets[j]].Dir? && AllFiles(base[datasets[j]].entries, TxtNames(base[datasets[j]].entries))
    ensures FirstFailure(base, datasets, datasets[i], name)
  {
  }

  /** `process_file` on each of `names`, in order. */
  function FileRecords(entries: map<string, Node>, names: seq<string>, t: DatasetType): (vs: seq<StatsValue>)
    requires AllFiles(entries, names)
    ensures |vs| == |names|
    decreases |names|
  {
    if names == [] then []
    else
      var last := names[|names| - 1];
      FileRecords(entries, names[..|names| - 1], t) + [ProcessLines(entries[last].lines, t)]
  }

  /** `summarize(process_file(...), top_n)` of a file's lines. */
  function FileSummary(lines: seq<string>, t: DatasetType, topN: int): Summary
  {
    ProcessLinesInv(lines, t);
    InvSummarizable(ProcessLines(lines, t), t);
    Summarize(ProcessLines(lines, t), topN)
  }

  /** Each name paired with its value under `f`, in order. */
  function Tagged<T>(names: seq<string>, f: string --> T): (r: seq<(string, T)>)
    requires forall i :: 0 <= i < |names| ==> f.requires(names[i])
    ensures |r| == |names|
    decreases |names|
  {
    if names == [] then []
    else
      var init := names[..|names| - 1];
      assert forall i :: 0 <= i < |init| ==> init[i] == names[i];
      Tagged(init, f) + [(names[|names| - 1], f(names[|names| - 1]))]
  }

  lemma {:induction false} TaggedAt<T>(names: seq<string>, f: string --> T)
    requires forall i :: 0 <= i < |names| ==> f.requires(names[i])
    ensures forall i :: 0 <= i < |names| ==> Tagged(names, f)[i] == (names[i], f(names[i]))
    decreases |names|
  {
    if names != [] {
      var init := names[..|names| - 1];
      assert forall i :: 0 <= i < |init| ==> init[i] == names[i];
      TaggedAt(init, f);
    }
  }

  lemma TaggedSnoc<T>(names: seq<string>, name: string, f: string --> T)
    requires forall i :: 0 <= i < |names| ==> f.requires(names[i])
    requires f.requires(name)
    ensures forall i :: 0 <= i < |names + [name]| ==> f.requires((names + [name])[i])
    ensures Tagged(names + [name], f) == Tagged(names, f) + [(name, f(name))]
  {
    assert (names + [name])[..|names|] == names;
  }

  /** The summary of each file of `entries`, by name. */
  function SummaryOf(entries: map<string, Node>, t: DatasetType, topN: int): string --> Summary
  {
    name requires name in entries && entries[name].File? => FileSummary(entries[name].lines, t, topN)
  }

  /** The `(filename, summary)` pairs of `per_file`, in order. */
  function FileSummaries(entries: map<string, Node>, names: seq<string>, t: DatasetType, topN: int): (r: seq<(string, Summary)>)
    requires AllFiles(entries, names)
  {
    Tagged(names, SummaryOf(entries, t, topN))
  }

  /** Each record is `process_file` of its file. */
  lemma {:induction false} FileRecordsAt(entries: map<string, Node>, names: seq<string>, t: DatasetType)
    requires AllFiles(entries, names)
    ensures forall i :: 0 <= i < |names| ==> FileRecords(entries, names, t)[i] == ProcessLines(entries[names[i]].lines, t)
    decreases |names|
  {
    if names != [] {
      var init := names[..|names| - 1];
      assert forall i :: 0 <= i < |init| ==> init[i] == names[i];
      FileRecordsAt(entries, init, t);
    }
  }

  /** The records of one convention keep its invariant. */
  lemma FileRecordsInv(entries: map<string, Node>, names: seq<string>, t: DatasetType)
    requires AllFiles(entries, names)
    ensures forall i :: 0 <= i < |names| ==> Inv(FileRecords(entries, names, t)[i], t)
  {
    FileRecordsAt(entries, names, t);
    forall i | 0 <= i < |names| ensures Inv(FileRecords(entries, names, t)[i], t) {
      ProcessLinesInv(entries[names[i]].lines, t);
    }
  }

  /** Each per-file entry is named after its file and holds its summary. */
  lemma FileSummariesAt(entries: map<string, Node>, names: seq<string>, t: DatasetType, topN: int)
    requires AllFiles(entries, names)
    ensures forall i :: 0 <= i < |names| ==> FileSummaries(entries, names, t, topN)[i].0 == names[i]
    ensures forall i :: 0 <= i < |names| ==>
      FileSummaries(entries, names, t, topN)[i].1 == FileSummary(entries[names[i]].lines, t, topN)
  {
    TaggedAt(names, SummaryOf(entries, t, topN));
  }

  /** One more file keeps a list of files made of files. */
  lemma AllFilesSnoc(entries: map<string, Node>, kept: seq<string>, name: string)
    requires AllFiles(entries, kept) && name in entries && entries[name].File?
    ensures AllFiles(entries, kept + [name])
  {
  }

  /** Reading one more file appends its record. */
  lemma ReadStep(entries: map<string, Node>, kept: seq<string>, name: string, t: DatasetType)
    requires AllFiles(entries, kept) && AllFiles(entries, kept + [name]) && name in entries && entries[name].File?
    ensures FileRecords(entries, kept + [name], t)
      == FileRecords(entries, kept, t) + [ProcessLines(entries[name].lines, t)]
  {
    assert (kept + [name])[..|kept|] == kept;
  }

  /** The summary of a file under `SummaryOf` is its `FileSummary`. */
  lemma SummaryOfFile(entries: map<string, Node>, name: string, t: DatasetType, topN: int)
    requires name in entries && entries[name].File?
    ensures SummaryOf(entries, t, topN).requires(name)
    ensures SummaryOf(entries, t, topN)(name) == FileSummary(entries[name].lines, t, topN)
  {
  }

  /** Reading one more file appends its summary to `per_file`. */
  lemma SummaryStep(entries: map<string, Node>, kept: seq<string>, name: string, t: DatasetType, topN: int)
    requires AllFiles(entries, kept) && AllFiles(entries, kept + [name]) && name in entries && entries[name].File?
    ensures FileSummaries(entries, kept + [name], t, topN)
      == FileSummaries(entries, kept, t, topN) + [(name, FileSummary(entries[name].lines, t, topN))]
  {
    var f := SummaryOf(entries, t, topN);
    assert forall i :: 0 <= i < |kept| ==> f.requires(kept[i]);
    SummaryOfFile(entries, name, t, topN);
    TaggedSnoc(kept, name, f);
  }

  /** `aggregate` of a dataset directory whose `.txt` names are all
      files: the records of its files merged in reading order, which keeps
      the invariant of the convention. */
  function Aggregate(entries: map<string, Node>, t: DatasetType): (v: StatsValue)
    requires AllFiles(entries, TxtNames(entries))
    ensures Inv(v, t)
  {
    var vs := FileRecords(entries, TxtNames(entries), t);
    FileRecordsInv(entries, TxtNames(entries), t);
    MergeAllInv(vs, t);
    MergeAll(vs)
  }

  /** What `analyze` stores for a dataset directory whose `.txt` names are
      all files: the summary of the aggregate and, with `per_file`, each
      file's own summary. */
  function Report(entries: map<string, Node>, t: DatasetType, topN: int, perFile: bool): DatasetReport
    requires AllFiles(entries, TxtNames(entries))
  {
    InvSummarizable(Aggregate(entries, t), t);
    DatasetReport(Summarize(Aggregate(entries, t), topN), if perFile then FileSummaries(entries, TxtNames(entries), t, topN) else [])
  }

  /** The triple count of the aggregate is the sum of the files'. */
  lemma ReportAggregate(entries: map<string, Node>, t: DatasetType, topN: int, perFile: bool)
    requires AllFiles(entries, TxtNames(entries))
    ensures Report(entries, t, topN, perFile).aggregate.triples == TriplesSum(FileRecords(entries, TxtNames(entries), t))
  {
    MergeAllTriples(FileRecords(entries, TxtNames(entries), t));
  }

  /** `files` is filled exactly with `per_file`, one entry per file read,
      named after it, holding that file's own summary. */
  lemma ReportFiles(entries: map<string, Node>, t: DatasetType, topN: int, perFile: bool)
    requires AllFiles(entries, TxtNames(entries))
    ensures var names := TxtNames(entries);
      var files := Report(entries, t, topN, perFile).files;
      && (perFile ==> |files| == |names|
                      && forall i :: 0 <= i < |files| ==>
                           files[i].0 == names[i] && files[i].1 == FileSummary(entries[names[i]].lines, t, topN))
      && (!perFile ==> files == [])
  {
    FileSummariesAt(entries, TxtNames(entries), t, topN);
  }

  /** Merging one more record into the fold of the others. */
  lemma MergeAllSnoc(vs: seq<StatsValue>, v: StatsValue)
    ensures MergeAll(vs + [v]) == Merge(MergeAll(vs), v)
  {
    assert (vs + [v])[..|vs|] == vs;
  }

  /** The loop of `analyze` over the sorted names of a dataset directory:
      each `.txt` name read and merged in turn, until one is a directory. */
  method ReadFiles(dataset: string, entries: map<string, Node>, names: seq<string>, t: DatasetType, topN: int, perFile: bool)
    returns (r: Result<(StatsValue, seq<(string, Summary)>), AnalysisError>)
    requires forall n :: n in names ==> n in entries
    ensures r.Success? <==> AllFiles(entries, KeepTxt(names))
    ensures r.Success? ==>
      && r.value.0 == MergeAll(FileRecords(entries, KeepTxt(names), t))
      && r.value.1 == if perFile then FileSummaries(entries, KeepTxt(names), t, topN) else []
    ensures r.Failure? ==>
      && r.error.IsADirectory? && r.error.dataset == dataset
      && r.error.name in entries && EndsWithTxt(r.error.name) && entries[r.error.name].Dir?
      && FirstTxtDir(entries, names, r.error.name)
  {
    var aggregate := new Stats();
    var files: seq<(string, Summary)> := [];
    ghost var kept: seq<string> := [];
    for i := 0 to |names|
      invariant kept == KeepTxt(names[..i]) && AllFiles(entries, kept)
      invariant aggregate.Value() == MergeAll(FileRecords(entries, kept, t))
      invariant files == if perFile then FileSummaries(entries, kept, t, topN) else []
    {
      var name := names[i];
      KeepTxtStep(names, i);
      assert name in names;
      if !EndsWith(name, ".txt") {
        continue;
      }
      if entries[name].Dir? {
        assert name in KeepTxt(names);
        assert names[i] == name && AllFiles(entries, KeepTxt(names[..i]));
        return Failure(IsADirectory(dataset, name));
      }
      files := ReadFile(aggregate, entries, kept, name, t, topN, perFile, files);
      kept := kept + [name];
    }
    assert names[..|names|] == names;
    return Success((aggregate.Value(), files));
  }

  /** The body of that loop for one file: `process_file` on it, its record
      merged into `aggregate` and, with `per_file`, its summary added. */
  method ReadFile(aggregate: Stats, entries: map<string, Node>, ghost kept: seq<string>, name: string,
                  t: DatasetType, topN: int, perFile: bool, files: seq<(string, Summary)>)
    returns (next: seq<(string, Summary)>)
    modifies aggregate
    requires AllFiles(entries, kept) && name in entries && entries[name].File?
    requires aggregate.Value() == MergeAll(FileRecords(entries, kept, t))
    requires files == if perFile then FileSummaries(entries, kept, t, topN) else []
    ensures AllFiles(entries, kept + [name])
    ensures aggregate.Value() == MergeAll(FileRecords(entries, kept + [name], t))
    ensures next == if perFile then FileSummaries(entries, kept + [name], t, topN) else []
  {
    AllFilesSnoc(entries, kept, name);
    ghost var before := FileRecords(entries, kept, t);
    var lines := entries[name].lines;
    var stats := ProcessFile(lines, t);
    var record := stats.Value();
    MergeStats(aggregate, stats);
    ReadStep(entries, kept, name, t);
    MergeAllSnoc(before, record);
    next := files;
    if perFile {
      SummaryStep(entries, kept, name, t, topN);
      ProcessLinesInv(lines, t);
      InvSummarizable(record, t);
      next := files + [(name, Summarize(record, topN))];
    }
  }

  /** One dataset directory: its report, or the first `.txt` name that is
      a directory. */
  method AnalyzeDataset(dataset: string, entries: map<string, Node>, t: DatasetType, topN: int, perFile: bool)
    returns (r: Result<DatasetReport, AnalysisError>)
    ensures r.Success? <==> AllFiles(entries, TxtNames(entries))
    ensures r.Success? ==> r.value == Report(entries, t, topN, perFile)
    ensures r.Failure? ==>
      && r.error.IsADirectory? && r.error.dataset == dataset
      && r.error.name in entries && EndsWithTxt(r.error.name) && entries[r.error.name].Dir?
      && FirstTxtDir(entries, SortedNames(entries), r.error.name)
  {
    var read := ReadFiles(dataset, entries, SortedNames(entries), t, topN, perFile);
    if read.Failure? {
      return Failure(read.error);
    }
    var aggregate := read.value.0;
    assert aggregate == Aggregate(entries, t);
    InvSummarizable(Aggregate(entries, t), t);
    return Success(DatasetReport(Summarize(aggregate, topN), read.value.1));
  }

  /** Every selected dataset directory has only files under its `.txt`
      names. */
  predicate Readable(base: map<string, Node>, datasets: seq<string>)
    requires forall d :: d in datasets ==> d in base && base[d].Dir?
  {
    forall j :: 0 <= j < |datasets| ==> AllFiles(base[datasets[j]].entries, TxtNames(base[datasets[j]].entries))
  }

  /** The loop of `analyze` over the selected datasets, in order. */
  method AnalyzeAll(base: map<string, Node>, datasets: seq<string>, topN: int, perFile: bool)
    returns (r: Result<seq<(string, DatasetReport)>, AnalysisError>)
    requires forall d :: d in datasets ==> d in base && base[d].Dir?
    ensures r.Success? <==> Readable(base, datasets)
    ensures r.Success? ==>
      && |r.value| == |datasets|
      && forall i :: 0 <= i < |datasets| ==>
           r.value[i] == (datasets[i], Report(base[datasets[i]].entries, GuessDatasetType(datasets[i]), topN, perFile))
    ensures r.Failure? ==>
      && r.error.IsADirectory? && r.error.dataset in datasets
      && var entries := base[r.error.dataset].entries;
         r.error.name in entries && EndsWithTxt(r.error.name) && entries[r.error.name].Dir?
    ensures r.Failure? ==> FirstFailure(base, datasets, r.error.dataset, r.error.name)
  {
    var results: seq<(string, DatasetReport)> := [];
    for i := 0 to |datasets|
      invariant |results| == i
      invariant forall j :: 0 <= j < i ==> AllFiles(base[datasets[j]].entries, TxtNames(base[datasets[j]].entries))
      invariant forall j :: 0 <= j < i ==>
        results[j] == (datasets[j], Report(base[datasets[j]].entries, GuessDatasetType(datasets[j]), topN, perFile))
    {
      var dataset := datasets[i];
      assert dataset in datasets;
      var report := AnalyzeDataset(dataset, base[dataset].entries, GuessDatasetType(dataset), topN, perFile);
      if report.Failure? {
        FirstFailureAt(base, datasets, i, report.error.name);
        return Failure(report.error);
      }
      ReadableStep(base, datasets, i);
      ReportStep(base, datasets, results, i, report.value, topN, perFile);
      results := results + [(dataset, report.value)];
    }
    return Success(results);
  }

  /** The report of each readable dataset directory of `base`, by name. */
  function ReportOf(base: map<string, Node>, topN: int, perFile: bool): string --> DatasetReport
  {
    d requires d in base && base[d].Dir? && AllFiles(base[d].entries, TxtNames(base[d].entries))
      => Report(base[d].entries, GuessDatasetType(d), topN, perFile)
  }

  /** Appending the next name's pair keeps a list of pairs pointwise equal
      to `f` of its names. */
  lemma PairsSnoc<T>(names: seq<string>, pairs: seq<(string, T)>, i: nat, x: T, f: string --> T)
    requires i < |names| && |pairs| == i
    requires forall j :: 0 <= j <= i ==> f.requires(names[j])
    requires forall j :: 0 <= j < i ==> pairs[j] == (names[j], f(names[j]))
    requires x == f(names[i])
    ensures forall j :: 0 <= j < i + 1 ==> (pairs + [(names[i], x)])[j] == (names[j], f(names[j]))
  {
  }

  /** One more readable dataset keeps the selection read so far readable. */
  lemma ReadableStep(base: map<string, Node>, datasets: seq<string>, i: nat)
    requires forall d :: d in datasets ==> d in base && base[d].Dir?
    requires i < |datasets|
    requires forall j :: 0 <= j < i ==> AllFiles(base[datasets[j]].entries, TxtNames(base[datasets[j]].entries))
    requires AllFiles(base[datasets[i]].entries, TxtNames(base[datasets[i]].entries))
    ensures forall j :: 0 <= j < i + 1 ==> AllFiles(base[datasets[j]].entries, TxtNames(base[datasets[j]].entries))
    ensures forall j :: 0 <= j < i + 1 ==>
      datasets[j] in base && base[datasets[j]].Dir? && AllFiles(base[datasets[j]].entries, TxtNames(base[datasets[j]].entries))
  {
  }

  /** One more dataset reported keeps the reports of `AnalyzeAll`. */
  lemma ReportStep(base: map<string, Node>, datasets: seq<string>, results: seq<(string, DatasetReport)>,
                   i: nat, report: DatasetReport, topN: int, perFile: bool)
    requires i < |datasets| && |results| == i
    requires forall j :: 0 <= j < i + 1 ==>
      datasets[j] in base && base[datasets[j]].Dir? && AllFiles(base[datasets[j]].entries, TxtNames(base[datasets[j]].entries))
    requires forall j :: 0 <= j < i ==>
      results[j] == (datasets[j], Report(base[datasets[j]].entries, GuessDatasetType(datasets[j]), topN, perFile))
    requires report == Report(base[datasets[i]].entries, GuessDatasetType(datasets[i]), topN, perFile)
    ensures forall j :: 0 <= j < i + 1 ==>
      (results + [(datasets[i], report)])[j]
        == (datasets[j], Report(base[datasets[j]].entries, GuessDatasetType(datasets[j]), topN, perFile))
  {
    PairsSnoc(datasets, results, i, report, ReportOf(base, topN, perFile));
  }

  /** `analyze(base_dir, top_n, include, per_file)`: fails with
      `NoDatasets` exactly when no dataset folder is selected, fails on a
      `.txt` directory of a selected dataset, and otherwise reports every
      selected dataset, ascending, under its own convention. */
  method Analyze(base: map<string, Node>, topN: int, wanted: seq<string>, perFile: bool)
    returns (r: Result<seq<(string, DatasetReport)>, AnalysisError>)
    ensures r == Failure(NoDatasets) <==> DiscoverDatasets(base, wanted) == []
    ensures r.Success? <==> DiscoverDatasets(base, wanted) != [] && Readable(base, DiscoverDatasets(base, wanted))
    ensures r.Success? ==> var ds := DiscoverDatasets(base, wanted);
      && |r.value| == |ds|
      && forall i :: 0 <= i < |ds| ==>
           r.value[i] == (ds[i], Report(base[ds[i]].entries, GuessDatasetType(ds[i]), topN, perFile))
    ensures r.Failure? && r.error.IsADirectory? ==>
      && r.error.dataset in DiscoverDatasets(base, wanted)
      && var entries := base[r.error.dataset].entries;
         r.error.name in entries && EndsWithTxt(r.error.name) && entries[r.error.name].Dir?
    ensures r.Failure? && r.error.IsADirectory? ==>
      FirstFailure(base, DiscoverDatasets(base, wanted), r.error.dataset, r.error.name)
  {
    var datasets := DiscoverDatasets(base, wanted);
    if datasets == [] {
      return Failure(NoDatasets);
    }
    r := AnalyzeAll(base, datasets, topN, perFile);
  }
}
