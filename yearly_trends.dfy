/** `plot_yearly_trends.py`: the number of triples per year of each
    dataset, read by a second, line-level year extractor. The script's
    classifier and dataset selection behave exactly like the engine's and
    are modelled by `Datasets.GuessDatasetType` and
    `Datasets.DiscoverDatasets`. */
module YearlyTrends {
  import opened Wrappers
  import opened Text
  import opened Counters
  import opened Dates
  import opened Rows
  import opened Paths
  import opened Datasets
  import opened TemporalStats

  // ---------------------------------------------------------------------
  // One line.

  /** The year one raw line is counted under by `year_counts_for_file`,
      if any: nothing for a blank line, otherwise the year of its tab
      columns. */
  function LineYear(raw: string, t: DatasetType): Option<int>
  {
    var line := Strip(raw);
    if line == "" then None else TokensYear(Split(line, '\t'), t)
  }

  /** The year of a line's columns: the ICEWS date's year, the Wikidata
      integer of the stripped fifth column, the first four digits of the
      YAGO fifth column, and for every other dataset the fourth column when
      it is all digits. */
  function TokensYear(tokens: seq<string>, t: DatasetType): (y: Option<int>)
    ensures |tokens| < 4 ==> y.None?
  {
    match t
    case Icews =>
      if |tokens| >= 4 then
        match ParseDate(tokens[3])
        case Some(d) => Some(d.year)
        case None => None
      else None
    case Wikidata =>
      if |tokens| >= 5 then ParseInt(Strip(tokens[4])) else None
    case Yago =>
      if |tokens| >= 5 then
        var digits := DigitsOf(tokens[4]);
        if |digits| >= 4 then Some(DecimalValue(digits[..4])) else None
      else None
    case Generic =>
      if |tokens| >= 4 && AllDigits(tokens[3]) then Some(DecimalValue(tokens[3])) else None
  }

  /** The year a temporal contribution of the engine counts, if any. */
  function TemporalYear(c: Temporal): Option<int>
  {
    match c
    case NoTemporal => None
    case Dated(d) => Some(d.year)
    case Marked(_, y) => y
  }

  /** For ICEWS, Wikidata and YAGO the extractor adds to the year counter
      exactly what one line of the engine's `process_file` adds to its
      `year_counter`: the same year, or nothing in both. */
  lemma LineYearAgrees(v: StatsValue, raw: string, t: DatasetType)
    requires t != Generic
    ensures ProcessLine(v, raw, t).yearCounter ==
      match LineYear(raw, t)
      case Some(y) => Inc(v.yearCounter, y)
      case None => v.yearCounter
  {
    match TripleColumns(raw)
    case None =>
      if !IsBlank(raw) {
        assert Columns(raw) == Split(Strip(raw), '\t');
      }
    case Some(cols) =>
      assert cols == Split(Strip(raw), '\t');
      TokensYearAgrees(cols, t);
      ApplyYear(AddTriple(v, cols[0], cols[1], cols[2]), Extract(cols, t));
  }

  /** Counting a contribution touches the year counter only through its
      year. */
  lemma ApplyYear(v: StatsValue, c: Temporal)
    ensures Apply(v, c).yearCounter ==
      match TemporalYear(c)
      case Some(y) => Inc(v.yearCounter, y)
      case None => v.yearCounter
  {
  }

  /** The extractor's year of a triple line is the year of the engine's
      contribution. */
  lemma TokensYearAgrees(tokens: seq<string>, t: DatasetType)
    requires t != Generic
    ensures TokensYear(tokens, t) == TemporalYear(Extract(tokens, t))
  {
    if t == Wikidata && |tokens| >= 5 {
      WikidataYearAgrees(tokens[4]);
    }
    if t == Yago && |tokens| >= 5 {
      DigitsOfStripChars(tokens[4], QuoteTrim);
    }
  }

  /** `int(tokens[4].strip())` gives the engine's Wikidata year: the empty
      string does not read as an integer. */
  lemma WikidataYearAgrees(token: string)
    ensures ParseInt(Strip(token)) == WikidataYear(token)
  {
    if Strip(token) == "" {
      assert Split("", '_') == [""];
      assert !DigitGroups("");
    }
  }

  /** For the generic convention the extractor counts every line whose
      fourth column is all digits, while the engine's year counter never
      moves. */
  lemma GenericDiffers(v: StatsValue, raw: string)
    ensures ProcessLine(v, raw, Generic).yearCounter == v.yearCounter
    ensures LineYear(raw, Generic).Some? <==> !IsBlank(raw) && |Columns(raw)| >= 4 && AllDigits(Columns(raw)[3])
  {
  }

  // ---------------------------------------------------------------------
  // One file.

  /** The counter `year_counts_for_file` builds from a file's lines. */
  function YearCounts(lines: seq<string>, t: DatasetType): (c: Counter<int>)
    ensures Valid(c)
    decreases |lines|
  {
    if lines == [] then Empty()
    else
      var c := YearCounts(lines[..|lines| - 1], t);
      match LineYear(lines[|lines| - 1], t)
      case Some(y) => Inc(c, y)
      case None => c
  }

  /** The number of lines that are not blank. */
  function NonBlank(lines: seq<string>): nat
    decreases |lines|
  {
    if lines == [] then 0
    else NonBlank(lines[..|lines| - 1]) + (if IsBlank(lines[|lines| - 1]) then 0 else 1)
  }

  /** Blank lines count nothing and every other line at most once, so the
      counts add up to at most the number of non-blank lines. */
  lemma {:induction false} YearCountsTotal(lines: seq<string>, t: DatasetType)
    ensures Total(YearCounts(lines, t)) <= NonBlank(lines)
    decreases |lines|
  {
    if lines != [] {
      var init := lines[..|lines| - 1];
      YearCountsTotal(init, t);
      var y := LineYear(lines[|lines| - 1], t);
      if y.Some? {
        TotalAdd(YearCounts(init, t), y.value, 1);
      }
    }
  }

  /** For ICEWS, Wikidata and YAGO a file's year counts are the engine's
      `year_counter` for that file, key order included. */
  lemma {:induction false} YearCountsAgree(lines: seq<string>, t: DatasetType)
    requires t != Generic
    ensures YearCounts(lines, t) == ProcessLines(lines, t).yearCounter
    decreases |lines|
  {
    if lines != [] {
      var init := lines[..|lines| - 1];
      YearCountsAgree(init, t);
      LineYearAgrees(ProcessLines(init, t), lines[|lines| - 1], t);
    }
  }

  /** `year_counts_for_file(path, dataset_type)` on the file's lines. */
  method YearCountsForFile(lines: seq<string>, t: DatasetType) returns (counts: Counter<int>)
    ensures counts == YearCounts(lines, t)
  {
    counts := Empty();
    for i := 0 to |lines|
      invariant counts == YearCounts(lines[..i], t)
    {
      assert lines[..i + 1][..i] == lines[..i];
      var line := Strip(lines[i]);
      if line == "" {
        continue;
      }
      var tokens := Split(line, '\t');
      if t == Icews {
        if |tokens| >= 4 {
          var date := ParseDate(tokens[3]);
          if date.None? {
            continue;
          }
          counts := Inc(counts, date.value.year);
        }
      } else if t == Wikidata {
        if |tokens| >= 5 {
          var year := ParseInt(Strip(tokens[4]));
          if year.None? {
            continue;
          }
          counts := Inc(counts, year.value);
        }
      } else if t == Yago {
        if |tokens| >= 5 {
          var digits := DigitsOf(tokens[4]);
          if |digits| >= 4 {
            counts := Inc(counts, DecimalValue(digits[..4]));
          }
        }
      } else {
        if |tokens| >= 4 && AllDigits(tokens[3]) {
          counts := Inc(counts, DecimalValue(tokens[3]));
        }
      }
    }
    assert lines[..|lines|] == lines;
  }

  // ---------------------------------------------------------------------
  // One dataset directory.

  /** What one directory entry adds to year `y` of the aggregate: its count
      when it is a `.txt` file, nothing otherwise. */
  function Contribution(entries: map<string, Node>, name: string, t: DatasetType, y: int): nat
  {
    if name in entries && IsTxt(name) && entries[name].File? then Get(YearCounts(entries[name].lines, t), y) else 0
  }

  /** The sum of the contributions of `names` to year `y`. */
  function YearSum(entries: map<string, Node>, names: seq<string>, t: DatasetType, y: int): nat
    decreases |names|
  {
    if names == [] then 0
    else YearSum(entries, names[..|names| - 1], t, y) + Contribution(entries, names[|names| - 1], t, y)
  }

  /** The loop of `aggregate_year_counts` over `names`: the counts of every
      `.txt` file merged in with `Counter.update`; opening a `.txt` entry
      that is a directory fails, with that name. */
  function Aggregate(entries: map<string, Node>, names: seq<string>, t: DatasetType): (r: Result<Counter<int>, string>)
    requires forall i :: 0 <= i < |names| ==> names[i] in entries
    ensures r.Success? ==> Valid(r.value)
    decreases |names|
  {
    if names == [] then Success(Empty())
    else
      var init := names[..|names| - 1];
      var name := names[|names| - 1];
      assert forall i :: 0 <= i < |init| ==> init[i] == names[i];
      match Aggregate(entries, init, t)
      case Failure(e) => Failure(e)
      case Success(c) =>
        if !IsTxt(name) then Success(c)
        else match entries[name]
          case Dir(_) => Failure(name)
          case File(lines) => Success(Update(c, YearCounts(lines, t)))
  }

  /** The aggregate succeeds exactly when no `.txt` entry is a directory,
      and then counts each year as the sum over the `.txt` files. */
  lemma AggregateCounts(entries: map<string, Node>, names: seq<string>, t: DatasetType)
    requires forall i :: 0 <= i < |names| ==> names[i] in entries
    ensures Aggregate(entries, names, t).Success? <==> TxtAreFiles(entries, names)
    ensures Aggregate(entries, names, t).Success? ==>
      forall y :: Get(Aggregate(entries, names, t).value, y) == YearSum(entries, names, t, y)
  {
    AggregateSucceeds(entries, names, t);
    if Aggregate(entries, names, t).Success? {
      AggregateSums(entries, names, t);
    }
  }

  lemma {:induction false} AggregateSucceeds(entries: map<string, Node>, names: seq<string>, t: DatasetType)
    requires forall i :: 0 <= i < |names| ==> names[i] in entries
    ensures Aggregate(entries, names, t).Success? <==> TxtAreFiles(entries, names)
    decreases |names|
  {
    if names != [] {
      var init := names[..|names| - 1];
      var name := names[|names| - 1];
      assert forall i :: 0 <= i < |init| ==> init[i] == names[i];
      AggregateSucceeds(entries, init, t);
      TxtAreFilesSnoc(entries, init, name);
      assert names == init + [name];
    }
  }

  lemma TxtAreFilesSnoc(entries: map<string, Node>, names: seq<string>, name: string)
    requires name in entries
    ensures TxtAreFiles(entries, names + [name]) <==> TxtAreFiles(entries, names) && (IsTxt(name) ==> entries[name].File?)
  {
    var all := names + [name];
    if TxtAreFiles(entries, all) {
      forall i | 0 <= i < |names| ensures names[i] in entries && (IsTxt(names[i]) ==> entries[names[i]].File?) {
        assert all[i] == names[i];
      }
      assert all[|names|] == name;
    }
  }

  lemma {:induction false} AggregateSums(entries: map<string, Node>, names: seq<string>, t: DatasetType)
    requires forall i :: 0 <= i < |names| ==> names[i] in entries
    requires Aggregate(entries, names, t).Success?
    ensures forall y :: Get(Aggregate(entries, names, t).value, y) == YearSum(entries, names, t, y)
    decreases |names|
  {
    if names != [] {
      var init := names[..|names| - 1];
      var name := names[|names| - 1];
      assert forall i :: 0 <= i < |init| ==> init[i] == names[i];
      AggregateSums(entries, init, t);
    }
  }

  /** Removing one name from anywhere removes just its contribution. */
  lemma {:induction false} YearSumRemove(entries: map<string, Node>, p: seq<string>, x: string, q: seq<string>, t: DatasetType, y: int)
    ensures YearSum(entries, p + [x] + q, t, y) == YearSum(entries, p + q, t, y) + Contribution(entries, x, t, y)
    decreases |q|
  {
    if q == [] {
      assert (p + [x])[..|p|] == p;
      assert p + [x] + q == p + [x];
      assert p + q == p;
    } else {
      var q' := q[..|q| - 1];
      var z := q[|q| - 1];
      assert (p + [x] + q)[..|p + [x] + q| - 1] == p + [x] + q';
      assert (p + q)[..|p + q| - 1] == p + q';
      YearSumRemove(entries, p, x, q', t, y);
    }
  }

  /** The last element of `a` sits somewhere in any permutation `b` of
      `a`, and what is left on both sides is again a permutation. */
  lemma MatchLast<T>(a: seq<T>, b: seq<T>) returns (j: nat)
    requires a != [] && multiset(a) == multiset(b)
    ensures j < |b| && b[j] == a[|a| - 1]
    ensures b == b[..j] + [b[j]] + b[j + 1..]
    ensures multiset(a[..|a| - 1]) == multiset(b[..j] + b[j + 1..])
  {
    var x := a[|a| - 1];
    assert a == a[..|a| - 1] + [x];
    assert x in multiset(b);
    j :| 0 <= j < |b| && b[j] == x;
    var p, q := b[..j], b[j + 1..];
    assert b == p + [x] + q;
    var a' := a[..|a| - 1];
    assert multiset(b) == multiset(p + q) + multiset{x};
    assert multiset(a) == multiset(a') + multiset{x};
    forall e ensures multiset(a')[e] == multiset(p + q)[e] {
      assert multiset(a)[e] == multiset(a')[e] + multiset{x}[e];
      assert multiset(b)[e] == multiset(p + q)[e] + multiset{x}[e];
    }
  }

  /** The sum does not depend on the order of the names. */
  lemma {:induction false} YearSumPermutation(entries: map<string, Node>, a: seq<string>, b: seq<string>, t: DatasetType, y: int)
    requires multiset(a) == multiset(b)
    ensures YearSum(entries, a, t, y) == YearSum(entries, b, t, y)
    decreases |a|
  {
    if a != [] {
      var x := a[|a| - 1];
      var a' := a[..|a| - 1];
      var j := MatchLast(a, b);
      var p, q := b[..j], b[j + 1..];
      YearSumPermutation(entries, a', p + q, t, y);
      YearSumRemove(entries, p, x, q, t, y);
    }
  }

  /** Whatever order the files are read in, the aggregate counts each year
      the same, and it succeeds or fails the same. */
  lemma AggregateOrderFree(entries: map<string, Node>, a: seq<string>, b: seq<string>, t: DatasetType)
    requires forall i :: 0 <= i < |a| ==> a[i] in entries
    requires multiset(a) == multiset(b)
    ensures forall i :: 0 <= i < |b| ==> b[i] in entries
    ensures Aggregate(entries, a, t).Success? <==> Aggregate(entries, b, t).Success?
    ensures Aggregate(entries, a, t).Success? ==>
      forall y :: Get(Aggregate(entries, a, t).value, y) == Get(Aggregate(entries, b, t).value, y)
  {
    forall i | 0 <= i < |b| ensures b[i] in entries {
      assert b[i] in multiset(a);
    }
    forall i | 0 <= i < |b| ensures IsTxt(b[i]) && TxtAreFiles(entries, a) ==> entries[b[i]].File? {
      assert b[i] in multiset(a);
    }
    forall i | 0 <= i < |a| ensures IsTxt(a[i]) && TxtAreFiles(entries, b) ==> entries[a[i]].File? {
      assert a[i] in multiset(b);
    }
    forall y ensures YearSum(entries, a, t, y) == YearSum(entries, b, t, y) {
      YearSumPermutation(entries, a, b, t, y);
    }
    AggregateCounts(entries, a, t);
    AggregateCounts(entries, b, t);
  }

  /** `aggregate_year_counts(dataset_dir, dataset_type)` over the entries
      of the dataset directory, in sorted order. */
  method AggregateYearCounts(entries: map<string, Node>, t: DatasetType) returns (r: Result<Counter<int>, string>)
    ensures r == Aggregate(entries, SortedNames(entries), t)
  {
    var names := SortedNames(entries);
    assert forall i :: 0 <= i < |names| ==> names[i] in entries;
    r := AggregateNames(entries, names, t);
  }

  /** The loop of `aggregate_year_counts` over the listed names. */
  method AggregateNames(entries: map<string, Node>, names: seq<string>, t: DatasetType) returns (r: Result<Counter<int>, string>)
    requires forall i :: 0 <= i < |names| ==> names[i] in entries
    ensures r == Aggregate(entries, names, t)
  {
    var aggregate := Empty();
    for i := 0 to |names|
      invariant Aggregate(entries, names[..i], t) == Success(aggregate)
    {
      AggregateNext(entries, names, i, t, aggregate);
      var filename := names[i];
      if !IsTxt(filename) {
        continue;
      }
      if entries[filename].Dir? {
        return Failure(filename);
      }
      var counts := YearCountsForFile(entries[filename].lines, t);
      aggregate := Update(aggregate, counts);
    }
    assert names[..|names|] == names;
    return Success(aggregate);
  }

  /** What the loop does with name `i`: skip it, fail with it, or merge in
      its counts. */
  lemma AggregateNext(entries: map<string, Node>, names: seq<string>, i: nat, t: DatasetType, c: Counter<int>)
    requires forall k :: 0 <= k < |names| ==> names[k] in entries
    requires i < |names| && Aggregate(entries, names[..i], t) == Success(c)
    ensures !IsTxt(names[i]) ==> Aggregate(entries, names[..i + 1], t) == Success(c)
    ensures IsTxt(names[i]) && entries[names[i]].Dir? ==> Aggregate(entries, names, t) == Failure(names[i])
    ensures IsTxt(names[i]) && entries[names[i]].File? ==>
      Aggregate(entries, names[..i + 1], t) == Success(Update(c, YearCounts(entries[names[i]].lines, t)))
  {
    AggregateStep(entries, names, i, t);
    if IsTxt(names[i]) && entries[names[i]].Dir? {
      AggregateFailsAt(entries, names, i, t);
    }
  }

  /** One more name is one more step of the loop. */
  lemma AggregateStep(entries: map<string, Node>, names: seq<string>, i: nat, t: DatasetType)
    requires forall k :: 0 <= k < |names| ==> names[k] in entries
    requires i < |names|
    ensures Aggregate(entries, names[..i + 1], t) ==
      match Aggregate(entries, names[..i], t)
      case Failure(e) => Failure(e)
      case Success(c) =>
        if !IsTxt(names[i]) then Success(c)
        else if entries[names[i]].Dir? then Failure(names[i])
        else Success(Update(c, YearCounts(entries[names[i]].lines, t)))
  {
    assert names[..i + 1][..i] == names[..i];
  }

  /** A `.txt` directory reached by the loop ends the aggregate with its
      name. */
  lemma AggregateFailsAt(entries: map<string, Node>, names: seq<string>, i: nat, t: DatasetType)
    requires forall k :: 0 <= k < |names| ==> names[k] in entries
    requires i < |names| && Aggregate(entries, names[..i], t).Success?
    requires IsTxt(names[i]) && entries[names[i]].Dir?
    ensures Aggregate(entries, names, t) == Failure(names[i])
  {
    AggregateStep(entries, names, i, t);
    AggregateFailed(entries, names, i + 1, t);
  }

  /** Once the loop has failed, reading more names keeps the failure. */
  lemma {:induction false} AggregateFailed(entries: map<string, Node>, names: seq<string>, i: nat, t: DatasetType)
    requires forall k :: 0 <= k < |names| ==> names[k] in entries
    requires i <= |names|
    requires Aggregate(entries, names[..i], t).Failure?
    ensures Aggregate(entries, names, t) == Aggregate(entries, names[..i], t)
    decreases |names| - i
  {
    if i < |names| {
      AggregateStep(entries, names, i, t);
      AggregateFailed(entries, names, i + 1, t);
    } else {
      assert names[..i] == names;
    }
  }

  // ---------------------------------------------------------------------
  // The whole run.

  /** Why the run stops: no dataset was selected, or a `.txt` entry of a
      dataset is a directory. */
  datatype TrendError = NoMatchingDatasets | IsADirectory(dataset: string, name: string)

  /** One dataset's aggregate: its own directory's `.txt` files read under
      its own convention. */
  function DatasetAggregate(base: map<string, Node>, dataset: string): Result<Counter<int>, string>
    requires dataset in base && base[dataset].Dir?
  {
    Aggregate(base[dataset].entries, SortedNames(base[dataset].entries), GuessDatasetType(dataset))
  }

  /** The aggregates of the selected datasets, in selection order. */
  function Aggregates(base: map<string, Node>, targets: seq<string>): (aggs: seq<Result<Counter<int>, string>>)
    requires forall i :: 0 <= i < |targets| ==> targets[i] in base && base[targets[i]].Dir?
    ensures |aggs| == |targets|
    ensures forall i :: 0 <= i < |targets| ==> aggs[i] == DatasetAggregate(base, targets[i])
  {
    seq(|targets|, i requires 0 <= i < |targets| => DatasetAggregate(base, targets[i]))
  }

  /** One turn of the plot loop: a failed aggregate stops the run, an empty
      one is skipped, any other is plotted after the earlier ones. */
  function PlotNext(done: Result<seq<(string, Counter<int>)>, TrendError>, dataset: string,
                    agg: Result<Counter<int>, string>): (r: Result<seq<(string, Counter<int>)>, TrendError>)
    ensures done.Failure? ==> r == done
    ensures done.Success? && agg.Failure? ==> r == Failure(IsADirectory(dataset, agg.error))
    ensures done.Success? && agg.Success? ==>
      r.Success? && r.value == done.value + (if agg.value.keys == [] then [] else [(dataset, agg.value)])
  {
    match done
    case Failure(e) => Failure(e)
    case Success(plotted) =>
      match agg
      case Failure(name) => Failure(IsADirectory(dataset, name))
      case Success(counts) =>
        if counts.keys == [] then Success(plotted) else Success(plotted + [(dataset, counts)])
  }

  /** The loop of `main` over the selected names and their aggregates. */
  function PlotLoop(names: seq<string>, aggs: seq<Result<Counter<int>, string>>): (r: Result<seq<(string, Counter<int>)>, TrendError>)
    requires |names| == |aggs|
    ensures r.Failure? ==> r.error.IsADirectory?
    decreases |names|
  {
    if names == [] then Success([])
    else
      var n := |names| - 1;
      PlotNext(PlotLoop(names[..n], aggs[..n]), names[n], aggs[n])
  }

  /** The datasets `main` plots, in order, each with its aggregate;
      datasets whose aggregate is empty are skipped. */
  function Plots(base: map<string, Node>, targets: seq<string>): (r: Result<seq<(string, Counter<int>)>, TrendError>)
    requires forall i :: 0 <= i < |targets| ==> targets[i] in base && base[targets[i]].Dir?
    ensures r.Failure? ==> r.error.IsADirectory?
  {
    PlotLoop(targets, Aggregates(base, targets))
  }

  /** The loop fails exactly when some aggregate fails, and then on the
      first one. */
  lemma {:induction false} PlotLoopFails(names: seq<string>, aggs: seq<Result<Counter<int>, string>>)
    requires |names| == |aggs|
    ensures PlotLoop(names, aggs).Success? <==> forall i :: 0 <= i < |aggs| ==> aggs[i].Success?
    ensures PlotLoop(names, aggs).Failure? ==>
      exists i :: 0 <= i < |aggs| && aggs[i].Failure?
        && PlotLoop(names, aggs).error == IsADirectory(names[i], aggs[i].error)
        && forall j :: 0 <= j < i ==> aggs[j].Success?
    decreases |names|
  {
    if names != [] {
      var n := |names| - 1;
      var ns, prev := names[..n], aggs[..n];
      PlotLoopFails(ns, prev);
      assert forall i :: 0 <= i < n ==> prev[i] == aggs[i];
      if PlotLoop(ns, prev).Failure? {
        var i :| 0 <= i < |prev| && prev[i].Failure?
          && PlotLoop(ns, prev).error == IsADirectory(ns[i], prev[i].error)
          && forall j :: 0 <= j < i ==> prev[j].Success?;
        assert names[i] == ns[i];
        assert aggs[i].Failure?;
      } else if aggs[n].Failure? {
        assert PlotLoop(names, aggs).error == IsADirectory(names[n], aggs[n].error);
      }
    }
  }

  /** Every plotted pair is a name with its own non-empty aggregate; `idx`
      gives, in increasing order, the position each plotted pair comes from. */
  lemma {:induction false} PlotLoopSound(names: seq<string>, aggs: seq<Result<Counter<int>, string>>)
    returns (idx: seq<nat>)
    requires |names| == |aggs|
    ensures PlotLoop(names, aggs).Success? ==>
      && |idx| == |PlotLoop(names, aggs).value|
      && (forall k :: 0 <= k < |idx| ==>
            && idx[k] < |names| && aggs[idx[k]].Success? && aggs[idx[k]].value.keys != []
            && PlotLoop(names, aggs).value[k] == (names[idx[k]], aggs[idx[k]].value))
      && (forall k, l :: 0 <= k < l < |idx| ==> idx[k] < idx[l])
    decreases |names|
  {
    idx := [];
    if names != [] {
      var n := |names| - 1;
      var ns, prev := names[..n], aggs[..n];
      var before := PlotLoopSound(ns, prev);
      var r := PlotLoop(names, aggs);
      if r.Success? {
        var done := PlotLoop(ns, prev).value;
        assert PlotLoop(ns, prev).Success? && aggs[n].Success?;
        assert r.value == done + (if aggs[n].value.keys == [] then [] else [(names[n], aggs[n].value)]);
        idx := if aggs[n].value.keys == [] then before else before + [n];
        forall k | 0 <= k < |idx|
          ensures && idx[k] < |names| && aggs[idx[k]].Success? && aggs[idx[k]].value.keys != []
                  && r.value[k] == (names[idx[k]], aggs[idx[k]].value)
        {
          if k < |before| {
            assert idx[k] == before[k] && r.value[k] == done[k];
            assert names[before[k]] == ns[before[k]] && aggs[before[k]] == prev[before[k]];
          } else {
            assert idx[k] == n && r.value[k] == (names[n], aggs[n].value);
          }
        }
        forall k, l | 0 <= k < l < |idx| ensures idx[k] < idx[l] {
          if l < |before| {
            assert idx[k] == before[k] && idx[l] == before[l];
          } else {
            assert idx[k] == before[k] && before[k] < n;
          }
        }
      }
    }
  }

  /** Every name whose aggregate is non-empty is plotted. */
  lemma {:induction false} PlotLoopComplete(names: seq<string>, aggs: seq<Result<Counter<int>, string>>)
    requires |names| == |aggs|
    ensures PlotLoop(names, aggs).Success? ==>
      forall i :: 0 <= i < |names| && aggs[i].Success? && aggs[i].value.keys != [] ==>
        (names[i], aggs[i].value) in PlotLoop(names, aggs).value
    decreases |names|
  {
    if names != [] {
      var n := |names| - 1;
      var ns, prev := names[..n], aggs[..n];
      PlotLoopComplete(ns, prev);
      var r := PlotLoop(names, aggs);
      if r.Success? {
        var done := PlotLoop(ns, prev).value;
        assert PlotLoop(ns, prev).Success? && aggs[n].Success?;
        assert r.value == done + (if aggs[n].value.keys == [] then [] else [(names[n], aggs[n].value)]);
        forall i | 0 <= i < |names| && aggs[i].Success? && aggs[i].value.keys != []
          ensures (names[i], aggs[i].value) in r.value
        {
          if i < n {
            assert (ns[i], prev[i].value) in done;
          }
        }
      }
    }
  }

  /** Looping over `a + b` plots `a`'s names and then `b`'s, and fails with
      the first failure. */
  lemma {:induction false} PlotLoopAppend(na: seq<string>, aa: seq<Result<Counter<int>, string>>,
                                         nb: seq<string>, ab: seq<Result<Counter<int>, string>>)
    requires |na| == |aa| && |nb| == |ab|
    ensures PlotLoop(na, aa).Failure? ==> PlotLoop(na + nb, aa + ab) == PlotLoop(na, aa)
    ensures PlotLoop(na, aa).Success? && PlotLoop(nb, ab).Failure? ==> PlotLoop(na + nb, aa + ab) == PlotLoop(nb, ab)
    ensures PlotLoop(na, aa).Success? && PlotLoop(nb, ab).Success? ==>
      PlotLoop(na + nb, aa + ab) == Success(PlotLoop(na, aa).value + PlotLoop(nb, ab).value)
    decreases |nb|
  {
    if nb == [] {
      assert na + nb == na && aa + ab == aa;
      if PlotLoop(na, aa).Success? {
        assert PlotLoop(na, aa).value + [] == PlotLoop(na, aa).value;
      }
    } else {
      var n := |nb| - 1;
      var ns, prev := nb[..n], ab[..n];
      assert (na + nb)[..|na + nb| - 1] == na + ns;
      assert (aa + ab)[..|aa + ab| - 1] == aa + prev;
      assert (na + nb)[|na + nb| - 1] == nb[n];
      assert (aa + ab)[|aa + ab| - 1] == ab[n];
      PlotLoopAppend(na, aa, ns, prev);
      if PlotLoop(na, aa).Success? && PlotLoop(ns, prev).Success? && ab[n].Success? {
        var pa, pb := PlotLoop(na, aa).value, PlotLoop(ns, prev).value;
        var tail := if ab[n].value.keys == [] then [] else [(nb[n], ab[n].value)];
        assert PlotLoop(na + nb, aa + ab).value == pa + pb + tail;
        assert pa + pb + tail == pa + (pb + tail);
      }
    }
  }

  /** Distinct names are plotted at most once each. */
  lemma {:induction false} PlotLoopOnce(names: seq<string>, aggs: seq<Result<Counter<int>, string>>)
    requires |names| == |aggs|
    requires forall i, j :: 0 <= i < j < |names| ==> names[i] != names[j]
    ensures PlotLoop(names, aggs).Success? ==>
      forall i, j :: 0 <= i < j < |PlotLoop(names, aggs).value| ==>
        PlotLoop(names, aggs).value[i].0 != PlotLoop(names, aggs).value[j].0
  {
    var idx := PlotLoopSound(names, aggs);
    var r := PlotLoop(names, aggs);
    if r.Success? {
      forall i, j | 0 <= i < j < |r.value| ensures r.value[i].0 != r.value[j].0 {
        assert r.value[i].0 == names[idx[i]] && r.value[j].0 == names[idx[j]];
      }
    }
  }

  /** What a plotted dataset must be: selected, with a non-empty aggregate
      that is the aggregate of its own directory under its convention. */
  ghost predicate PlotOf(base: map<string, Node>, targets: seq<string>, p: (string, Counter<int>))
  {
    && p.0 in targets && p.0 in base && base[p.0].Dir?
    && p.1.keys != []
    && DatasetAggregate(base, p.0) == Success(p.1)
  }

  /** A selected dataset with its own non-empty aggregate is a plot of the
      selection. */
  lemma {:induction false} PlotOfAt(base: map<string, Node>, targets: seq<string>, i: nat, p: (string, Counter<int>))
    requires i < |targets| && targets[i] in base && base[targets[i]].Dir?
    requires DatasetAggregate(base, targets[i]) == Success(p.1) && p.1.keys != []
    requires p.0 == targets[i]
    ensures PlotOf(base, targets, p)
  {
  }

  /** Every plotted dataset was selected, has a non-empty aggregate and
      holds the aggregate of its own directory under its own convention. */
  lemma {:induction false} PlotsSound(base: map<string, Node>, targets: seq<string>)
    requires forall i :: 0 <= i < |targets| ==> targets[i] in base && base[targets[i]].Dir?
    ensures Plots(base, targets).Success? ==>
      forall k :: 0 <= k < |Plots(base, targets).value| ==> PlotOf(base, targets, Plots(base, targets).value[k])
  {
    var aggs := Aggregates(base, targets);
    var idx := PlotLoopSound(targets, aggs);
    var r := Plots(base, targets);
    assert r == PlotLoop(targets, aggs);
    if r.Success? {
      forall k | 0 <= k < |r.value| ensures PlotOf(base, targets, r.value[k]) {
        PlotOfAt(base, targets, idx[k], r.value[k]);
      }
    }
  }

  /** The plot loop fails exactly when some dataset's aggregate fails, and
      then on the first such dataset; when it succeeds, every dataset with a
      non-empty aggregate is plotted with that aggregate. */
  lemma {:induction false} PlotsComplete(base: map<string, Node>, targets: seq<string>)
    requires forall i :: 0 <= i < |targets| ==> targets[i] in base && base[targets[i]].Dir?
    ensures Plots(base, targets).Success? <==>
      forall i :: 0 <= i < |targets| ==> DatasetAggregate(base, targets[i]).Success?
    ensures Plots(base, targets).Success? ==>
      forall i :: 0 <= i < |targets| && DatasetAggregate(base, targets[i]).value.keys != [] ==>
        (targets[i], DatasetAggregate(base, targets[i]).value) in Plots(base, targets).value
    ensures Plots(base, targets).Failure? ==>
      exists i :: 0 <= i < |targets|
        && DatasetAggregate(base, targets[i]).Failure?
        && Plots(base, targets).error == IsADirectory(targets[i], DatasetAggregate(base, targets[i]).error)
        && forall j :: 0 <= j < i ==> DatasetAggregate(base, targets[j]).Success?
  {
    var aggs := Aggregates(base, targets);
    PlotLoopFails(targets, aggs);
    PlotLoopComplete(targets, aggs);
  }

  /** The plot loop runs in selection order: plotting `a + b` plots `a`'s
      datasets and then `b`'s, and fails with the first failure. */
  lemma {:induction false} PlotsAppend(base: map<string, Node>, a: seq<string>, b: seq<string>)
    requires forall i :: 0 <= i < |a| ==> a[i] in base && base[a[i]].Dir?
    requires forall i :: 0 <= i < |b| ==> b[i] in base && base[b[i]].Dir?
    ensures Plots(base, a).Failure? ==> Plots(base, a + b) == Plots(base, a)
    ensures Plots(base, a).Success? && Plots(base, b).Failure? ==> Plots(base, a + b) == Plots(base, b)
    ensures Plots(base, a).Success? && Plots(base, b).Success? ==>
      Plots(base, a + b) == Success(Plots(base, a).value + Plots(base, b).value)
  {
    assert Aggregates(base, a + b) == Aggregates(base, a) + Aggregates(base, b);
    PlotLoopAppend(a, Aggregates(base, a), b, Aggregates(base, b));
  }

  /** A selection that names each dataset once plots each at most once. */
  lemma {:induction false} PlotsOnce(base: map<string, Node>, targets: seq<string>)
    requires forall i :: 0 <= i < |targets| ==> targets[i] in base && base[targets[i]].Dir?
    requires forall i, j :: 0 <= i < j < |targets| ==> targets[i] != targets[j]
    ensures Plots(base, targets).Success? ==>
      forall i, j :: 0 <= i < j < |Plots(base, targets).value| ==>
        Plots(base, targets).value[i].0 != Plots(base, targets).value[j].0
  {
    PlotLoopOnce(targets, Aggregates(base, targets));
  }

  /** `main` without the plotting: the selected datasets, or a fatal error
      when none is selected. */
  function PlotRun(base: map<string, Node>, wanted: seq<string>): (r: Result<seq<(string, Counter<int>)>, TrendError>)
    ensures DiscoverDatasets(base, wanted) == [] ==> r == Failure(NoMatchingDatasets)
    ensures r == Failure(NoMatchingDatasets) ==> DiscoverDatasets(base, wanted) == []
  {
    var targets := DiscoverDatasets(base, wanted);
    if targets == [] then Failure(NoMatchingDatasets)
    else Plots(base, targets)
  }
}
