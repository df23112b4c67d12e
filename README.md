# Temporal knowledge-graph statistics, modelled in Dafny

This project models the scripts of the RCS-work repository that describe
temporal knowledge-graph splits. A split is a tab-separated file with one
`subject<TAB>relation<TAB>object[<TAB>...]` triple per line. Four dataset
families store their time information in their own way:

- ICEWS: a `YYYY-MM-DD` date in the fourth column;
- Wikidata: a marker and a year in columns four and five;
- YAGO: a marker and a quoted date literal;
- everything else ("generic"): nothing the engine reads.

The model covers:

- **The statistics engine** (`analyze_temporal_kgs.py`).
  - The `Stats` record is a class whose fields `process_file`,
    `parse_temporal_tokens` and `merge_stats` update in place.
  - Each method is proved to change those fields exactly as a pure function
    on the record's value says.
  - About those functions, the model proves:
    - the invariants every record of a convention keeps (counters agree
      with the sets, totals match the triple count, date and year ranges
      are the ends of the counted values);
    - that merging is commutative, associative and has the empty record
      as identity, up to the order of counter keys;
    - that the `summarize` and `humanize` output follows from the record.
  - `analyze` discovers the dataset folders and reads every `.txt` file.
    It is proved to report each selected dataset by the pure
    specification `Analysis.Report`. It fails exactly in two cases: when
    no folder is selected, or when a `.txt` name is a directory.
- **`Counter` semantics.**
  - `c[k] += n`: the key-wise sums of `update`, and the totals.
  - `most_common(n)`: sorted by count, ties in first-insertion order,
    nothing left out that counts more.
- **The yearly-trends extractor** (`plot_yearly_trends.py`).
  - It is proved to count, for ICEWS, Wikidata and YAGO, exactly the
    years of the engine's `year_counter`.
  - The aggregate is proved to be independent of the file order.
- **The label mapping builder** (`build_wikidata_label_mapping.py`):
  - identifier collection;
  - batching (sizes, concatenation, batch count);
  - later answers win;
  - the progress counter;
  - the mapping file's lines.
- **The label joiner** (`join_entity_labels.py`):
  - delimiter resolution;
  - mapping loading, where the last row wins and keys and labels are
    stripped;
  - the row rewrite, whose inverse drops the label cells again;
  - the round trip from the builder's file back to the same mapping.
- **The tail sampler** (`sample_tail_entities.py`):
  - the triples loaded;
  - the entity frequencies;
  - the tail entities, exactly those seen at most `max_frequency` times;
  - the filter over tail triples;
  - a sample drawn from distinct positions.

A directory tree is a `Paths.Node`: a file is its list of lines, a
directory maps names to nodes. Reading a file, listing a directory,
command-line parsing, printing, JSON output, plotting and the network are
not modelled. The values they produce or consume are parameters and
results.

Points where the code behaves differently from what its names suggest;
the model follows the code:

- The YAGO year is read from the first four of **all** the digits of the
  quote-stripped date literal, wherever they stand in it:
  scripts/analyze_temporal_kgs.py:120 keeps every digit character. So
  `"c.1850s"` gives 1850, and a literal whose digits are split by other
  characters still gives a year when there are at least four of them.
- An ICEWS year goes into `year_counter` but never into
  `min_year`/`max_year`; only the date range moves.
- A `.txt` name that is a directory makes `open` fail. The model turns
  this into an error result that names the dataset and the file.
- A negative `--sample-size` makes `random.sample` raise when there are
  tail triples to draw from. The model returns `NegativeSampleSize` as a
  failure.
- `merge_stats` reads only `other`'s lower bounds (lines 69 and 77). A
  record whose maximum is set without its minimum loses the maximum.
  `StatsMerge.MergeUnpairedBounds` shows this. Every engine-built record
  sets both ends together, so the merge is the min/max of the ranges
  (`StatsMerge.MergeRanges`).

## Model

| member | source | states |
|---|---|---|
| Text.TrimStart | scripts/analyze_temporal_kgs.py:134 | the result is a suffix of the input; every dropped character is in the strip set; the result does not start with one |
| Text.TrimEnd | scripts/analyze_temporal_kgs.py:134 | the result is a prefix of the input; every dropped character is in the strip set; the result does not end with one |
| Text.StripCharsShape | scripts/analyze_temporal_kgs.py:116-117 | `strip(cs)` keeps one contiguous slice; everything removed on either side is in `cs` |
| Text.StripCharsEnds | scripts/analyze_temporal_kgs.py:116-117 | a non-empty stripped string neither starts nor ends with a stripped character |
| Text.StripCharsBlank | scripts/analyze_temporal_kgs.py:134-136 | a line strips to nothing exactly when all its characters are whitespace (the blank-line skip) |
| Text.StripIdempotent | scripts/analyze_temporal_kgs.py:134 | stripping twice equals stripping once |
| Text.StripCharsEmpty | scripts/analyze_temporal_kgs.py:134 | the empty string strips to itself |
| Text.Split | scripts/analyze_temporal_kgs.py:137 | `split("\t")` returns at least one part, no part holds the separator, and joining the parts gives the input back |
| Text.SplitJoin | scripts/analyze_temporal_kgs.py:137 | splitting undoes joining for parts free of the separator (the other half of the round trip) |
| Text.SplitNoSep | scripts/analyze_temporal_kgs.py:137 | a string without the separator splits into itself alone |
| Text.SplitAfterPiece | scripts/analyze_temporal_kgs.py:137 | a separator-free piece followed by the separator splits off as the first part |
| Text.Lower | scripts/analyze_temporal_kgs.py:42 | `lower()` keeps the length and lowers each character on its own |
| Text.Contains | scripts/analyze_temporal_kgs.py:43-48 | the substring test is true exactly when the pattern occurs at some position |
| Text.OccursStep | scripts/analyze_temporal_kgs.py:43-48 | a pattern occurs in `s` exactly when it starts `s` or occurs in the rest; a pattern longer than `s` never occurs |
| Text.DigitsOf | scripts/analyze_temporal_kgs.py:120 | the digit filter keeps only digits and never grows the string |
| Text.DigitsOfAppend | scripts/analyze_temporal_kgs.py:120 | the digits of a concatenation are the digits of each part, in order |
| Text.DigitsOfStripChars | scripts/analyze_temporal_kgs.py:117-120 | stripping quotes does not change the digits of a YAGO literal |
| Text.DigitsOfTrimStart | scripts/analyze_temporal_kgs.py:117-120 | removing a non-digit prefix keeps the digits |
| Text.DigitsOfTrimEnd | scripts/analyze_temporal_kgs.py:117-120 | removing a non-digit suffix keeps the digits |
| Text.DigitsOfDigits | scripts/analyze_temporal_kgs.py:120 | a string of digits is its own digit filter |
| Text.DecimalValueBound | scripts/analyze_temporal_kgs.py:122 | `int` of `k` digits is below `10^k`, so four digits give a year below 10000 |
| Text.PlainDigits | scripts/plot_yearly_trends.py:75-76 | a run of digits (`isdigit()`) is one digit group that `int` accepts |
| Text.ParseIntDigits | scripts/analyze_temporal_kgs.py:106 | `int` reads a run of digits, with or without a minus sign, as its decimal value |
| Text.ParseIntUnderscore | scripts/analyze_temporal_kgs.py:106 | `int("1_0") == 10`: single underscores between digits are accepted |
| Text.ParseIntDoubleUnderscore | scripts/analyze_temporal_kgs.py:106-108 | `int("1__0")` fails (the `ValueError` branch) |
| Text.DigitChar | scripts/analyze_temporal_kgs.py:167 | each digit value has a digit character with that value |
| Text.NatToString | scripts/analyze_temporal_kgs.py:167 | `str(n)` of a natural number is all digits |
| Text.DecimalValueOfNatToString | scripts/analyze_temporal_kgs.py:167 | the digits of `str(n)` read back as `n` |
| Text.ParseIntToString | scripts/analyze_temporal_kgs.py:106 | `int(str(n)) == n` for every integer |
| Text.StrLeReflexive | scripts/analyze_temporal_kgs.py:214 | string order is reflexive |
| Text.StrLeTotal | scripts/analyze_temporal_kgs.py:214 | any two strings are ordered one way or the other |
| Text.StrLeAntisymmetric | scripts/analyze_temporal_kgs.py:214 | strings ordered both ways are equal |
| Text.StrLeTransitive | scripts/analyze_temporal_kgs.py:214 | string order is transitive |
| Text.LeastExists | scripts/analyze_temporal_kgs.py:214 | every non-empty set of names has a least element |
| Text.LeastUnique | scripts/analyze_temporal_kgs.py:214 | the least element is unique |
| Text.SortedElements | scripts/build_wikidata_label_mapping.py:92 | `sorted(set)` is ascending, lists each element once, and lists exactly the set's elements |
| Text.SortedUnique | scripts/analyze_temporal_kgs.py:214 | two ascending duplicate-free lists of the same elements are equal, so `sorted` does not depend on listing order |
| Counters.Empty | scripts/analyze_temporal_kgs.py:28-33 | `Counter()` is well formed and counts zero for every key |
| Counters.Add | scripts/analyze_temporal_kgs.py:145-149 | `c[k] += n` moves only `k`'s count, by `n`; a new key is listed last |
| Counters.Update | scripts/analyze_temporal_kgs.py:61-66 | `update` adds counts key by key; the keys are the union; `c`'s keys keep their order, followed by `d`'s new keys |
| Counters.UpdateFromValid | scripts/analyze_temporal_kgs.py:61-66 | the update loop keeps a counter well formed |
| Counters.UpdateFromDomain | scripts/analyze_temporal_kgs.py:61-66 | the update loop adds exactly the visited keys |
| Counters.UpdateFromGet | scripts/analyze_temporal_kgs.py:61-66 | the update loop adds `d[k]` to each visited key and nothing to the others |
| Counters.UpdateFromPrefix | scripts/analyze_temporal_kgs.py:61-66 | the update loop keeps the existing keys in front |
| Counters.UpdateFromFresh | scripts/analyze_temporal_kgs.py:61-66 | keys not counted yet are appended in visiting order |
| Counters.UpdateFacts | scripts/analyze_temporal_kgs.py:61-66 | the update loop over `d`'s keys has every property `Counters.Update` promises |
| Counters.SameCounts | scripts/analyze_temporal_kgs.py:61-66 | two counters with equal keys and equal counts have equal count maps |
| Counters.UpdateFromEmpty | scripts/analyze_temporal_kgs.py:241 | updating an empty counter with `d` rebuilds `d` exactly |
| Counters.UpdateEmpty | scripts/analyze_temporal_kgs.py:234-241 | merging into a fresh aggregate copies the counter, key order included |
| Counters.UpdateWithEmpty | scripts/analyze_temporal_kgs.py:61-66 | updating with an empty counter changes nothing |
| Counters.TotalAdd | scripts/analyze_temporal_kgs.py:145-149 | `c[k] += n` raises the total by `n` |
| Counters.TotalUpdateFrom | scripts/analyze_temporal_kgs.py:61-66 | the update loop raises the total by the visited counts |
| Counters.TotalUpdate | scripts/analyze_temporal_kgs.py:61-66 | `c.update(d)` adds `d`'s total to `c`'s |
| Counters.KeyCount | scripts/analyze_temporal_kgs.py:157-159 | a counter lists exactly as many keys as it counts |
| Counters.InsertByCount | scripts/analyze_temporal_kgs.py:160 | inserting into the ranking is a permutation of the key added to the list |
| Counters.InsertByCountSorted | scripts/analyze_temporal_kgs.py:160 | inserting keeps the ranking sorted by descending count |
| Counters.InsertByCountDistinct | scripts/analyze_temporal_kgs.py:160 | inserting a new key keeps the ranking duplicate-free |
| Counters.InsertByCountWithCount | scripts/analyze_temporal_kgs.py:160 | inserting keeps the relative order of the keys of each count (stability) |
| Counters.Rank | scripts/analyze_temporal_kgs.py:160 | the ranking is a permutation of the keys |
| Counters.RankSorted | scripts/analyze_temporal_kgs.py:160 | the ranking is sorted by descending count |
| Counters.RankDistinct | scripts/analyze_temporal_kgs.py:160 | the ranking of distinct keys is distinct |
| Counters.RankStable | scripts/analyze_temporal_kgs.py:160 | equal counts keep first-insertion order |
| Counters.WithCountPrefix | scripts/analyze_temporal_kgs.py:160 | cutting the ranking keeps a prefix of each tie class |
| Counters.KeysOf | scripts/analyze_temporal_kgs.py:160 | the keys of a `most_common` list, position by position |
| Counters.Top | scripts/analyze_temporal_kgs.py:160 | the first `m` ranked keys, each with its count |
| Counters.MostCommon | scripts/analyze_temporal_kgs.py:160-165 | `most_common(n)` has `min(max(n,0), keys)` pairs of distinct counted keys with their counts, in descending count; no omitted key counts more than a listed one; ties keep first-insertion order |
| Counters.TopCounted | scripts/analyze_temporal_kgs.py:160-165 | the listed pairs are distinct counted keys with their own counts |
| Counters.TopOrdered | scripts/analyze_temporal_kgs.py:160-165 | the listed pairs descend by count and dominate every omitted key |
| Counters.TopStable | scripts/analyze_temporal_kgs.py:160-165 | the listed keys of each count come in first-insertion order |
| CounterLaws.UpdateCommutes | scripts/analyze_temporal_kgs.py:61-66 | the counts of `c.update(d)` and `d.update(c)` agree; only the key order differs |
| CounterLaws.UpdateCommutesPointwise | scripts/analyze_temporal_kgs.py:61-66 | both orders have the same keys and the same count for every key |
| CounterLaws.UpdateAssociates | scripts/analyze_temporal_kgs.py:61-66 | updating is associative on counts |
| CounterLaws.UpdateAssociatesPointwise | scripts/analyze_temporal_kgs.py:61-66 | both groupings have the same keys and counts |
| CounterLaws.UpdateCongruent | scripts/analyze_temporal_kgs.py:61-66 | the counts of an update depend only on the counts of its arguments |
| Dates.BeforeOrder | scripts/analyze_temporal_kgs.py:94-97 | date comparison is a strict total order |
| Dates.Pad | scripts/analyze_temporal_kgs.py:167-168 | zero padding gives exactly `width` digits |
| Dates.PadValue | scripts/analyze_temporal_kgs.py:167-168 | a padded number reads back as itself |
| Dates.PadOfValue | scripts/analyze_temporal_kgs.py:167-168 | a digit string is the padding of its own value |
| Dates.IsoFormat | scripts/analyze_temporal_kgs.py:167-168 | `isoformat()` of a valid date has ten characters |
| Dates.PaddedFields | scripts/analyze_temporal_kgs.py:89 | ten blank-free characters of `%Y-%m-%d` fields are zero-padded fields |
| Dates.ParseDate | scripts/analyze_temporal_kgs.py:88-91 | `strptime(s, "%Y-%m-%d")` yields only real dates; a ten-character blank-free input is the ISO form of its result |
| Dates.IsoOfFields | scripts/analyze_temporal_kgs.py:89 | fields read from a ten-character input are that input's ISO form |
| Dates.ParseIsoFormat | scripts/analyze_temporal_kgs.py:167-168 | every valid date is read back from its `isoformat()` |
| Dates.MonthPad | scripts/analyze_temporal_kgs.py:89 | a padded month is a `%m` field |
| Dates.DayPad | scripts/analyze_temporal_kgs.py:89 | a padded day is a `%d` field |
| Dates.PadsValue | scripts/analyze_temporal_kgs.py:167 | the padded fields of a valid date read back as its fields |
| Dates.ParseDateOfFields | scripts/analyze_temporal_kgs.py:89 | a well-formed field triple that names a real date is read as that date |
| Dates.SplitFields | scripts/analyze_temporal_kgs.py:89 | a dash-joined triple of dash-free fields splits into those fields |
| Dates.ParseDateExample | scripts/analyze_temporal_kgs.py:89 | `2010-05-01` is read as May 1, 2010 |
| Dates.ParseDateRejectsMonth | scripts/analyze_temporal_kgs.py:88-91 | month 13 is refused |
| Dates.ParseDateShortFields | scripts/analyze_temporal_kgs.py:89 | `2010-5-1` is accepted, as `strptime` accepts unpadded fields |
| Dates.ParseDateBlankDay | scripts/analyze_temporal_kgs.py:89 | a blank-padded day is accepted |
| Dates.ParseDateRejectsLongDay | scripts/analyze_temporal_kgs.py:88-91 | a three-character day is refused |
| Dates.ParseDateLeapDay | scripts/analyze_temporal_kgs.py:89 | February 29 of a leap year is accepted |
| Paths.LastDot | scripts/plot_yearly_trends.py:83 | the last dot of a name, if any |
| Paths.StemSuffix | scripts/plot_yearly_trends.py:83 | the stem followed by the suffix is the name; a suffix starts with a dot and holds no other |
| Paths.SuffixTxt | scripts/plot_yearly_trends.py:83 | `suffix == ".txt"` exactly when the name ends with `.txt` and is longer than `.txt` itself |
| Paths.WithSuffix | scripts/join_entity_labels.py:58-59 | `with_suffix` fails on an empty name or a bad suffix, and otherwise puts the suffix after the stem |
| Paths.SortedNames | scripts/analyze_temporal_kgs.py:236 | `sorted(os.listdir(d))` lists each entry once, ascending |
| Paths.SortedDirNames | scripts/analyze_temporal_kgs.py:214-218 | the sorted sub-directory names, each once, and only those |
| Rows.Columns | scripts/analyze_temporal_kgs.py:134-137 | the tab columns of the stripped line; joined back, they are the stripped line |
| Rows.TripleColumns | scripts/analyze_temporal_kgs.py:134-139 | a line is kept exactly when it is not blank and has at least three columns |
| Rows.KeptRows | scripts/analyze_temporal_kgs.py:133-139 | the kept rows have at least three columns, at most one per line |
| Rows.TripleColumnsOfJoin | scripts/analyze_temporal_kgs.py:134-139 | a written row of three or more clean cells is read back as those cells |
| Rows.StrippedColumns | scripts/analyze_temporal_kgs.py:134-139 | a line with no surrounding whitespace is cut as it stands |
| Datasets.GuessDatasetType | scripts/analyze_temporal_kgs.py:41-49 | a case-insensitive substring test: ICEWS first, then Wikidata, then YAGO, otherwise generic; each case stated in both directions |
| Datasets.GuessMixedName | scripts/analyze_temporal_kgs.py:43-46 | a name that mentions two conventions takes the first in priority |
| Datasets.GuessUpperCase | scripts/analyze_temporal_kgs.py:42 | upper-case letters are lowered before the test |
| Datasets.FirstCharAbsent | scripts/analyze_temporal_kgs.py:43-48 | a pattern whose first character is missing does not occur |
| Datasets.LowerAll | scripts/analyze_temporal_kgs.py:220 | the lower-cased include set |
| Datasets.KeepAllowed | scripts/analyze_temporal_kgs.py:221 | keeps exactly the names whose lower-cased form is included, in order, without duplicates |
| Datasets.DiscoverDatasets | scripts/analyze_temporal_kgs.py:213-222 | the selected names are exactly the sub-directories matched case-insensitively by `include` (all of them when it is empty), ascending and without duplicates |
| Datasets.DiscoverDatasetsIncludeOrder | scripts/analyze_temporal_kgs.py:219-221 | the selection depends only on the lower-cased include set, not on its order, repetition or case |
| TemporalStats.OptMinDate | scripts/analyze_temporal_kgs.py:69-71 | the earlier of two optional dates |
| TemporalStats.OptMaxDate | scripts/analyze_temporal_kgs.py:72-75 | the later of two optional dates |
| TemporalStats.OptMinYear | scripts/analyze_temporal_kgs.py:77-79 | the smaller of two optional years |
| TemporalStats.OptMaxYear | scripts/analyze_temporal_kgs.py:80-81 | the larger of two optional years |
| TemporalStats.OptBoundsAlgebra | scripts/analyze_temporal_kgs.py:69-81 | the four range operations are commutative and associative, with `None` as identity |
| TemporalStats.YagoYear | scripts/analyze_temporal_kgs.py:117-122 | a YAGO year exists exactly when the literal holds at least four digits, and it is below 10000 |
| TemporalStats.Extract | scripts/analyze_temporal_kgs.py:84-127 | a line is dated exactly when it is ICEWS with four columns and a parsable date (whose ISO form is the column); it is marked exactly when it is Wikidata or YAGO with five columns; it never contributes anything its convention cannot |
| TemporalStats.InitInv | scripts/analyze_temporal_kgs.py:52-53 | the empty record satisfies the invariant of every convention |
| TemporalStats.AddTripleInv | scripts/analyze_temporal_kgs.py:141-149 | counting a triple keeps the counters consistent with the sets and totals |
| TemporalStats.AddTripleValid | scripts/analyze_temporal_kgs.py:141-149 | counting a triple keeps every counter well formed |
| TemporalStats.AddTripleKeys | scripts/analyze_temporal_kgs.py:141-149 | counting a triple keeps each counter's keys equal to its set |
| TemporalStats.AddTripleEntities | scripts/analyze_temporal_kgs.py:145-148 | an entity's count stays its subject count plus its object count |
| TemporalStats.AddTripleTotals | scripts/analyze_temporal_kgs.py:141-149 | subject, object and relation totals stay equal to the triple count; the entity total stays twice it |
| TemporalStats.WithDateInv | scripts/analyze_temporal_kgs.py:92-97 | an ICEWS date raises the year total by one and keeps the date range at the ends of the counted dates |
| TemporalStats.WithYearInv | scripts/analyze_temporal_kgs.py:109-113 | a year raises the year total by one and keeps the year range at the ends of the counted years |
| TemporalStats.ApplyInv | scripts/analyze_temporal_kgs.py:84-127 | the temporal columns of a line keep the invariant of its convention |
| TemporalStats.ApplyDatedInv | scripts/analyze_temporal_kgs.py:85-97 | the ICEWS branch keeps the ICEWS invariant |
| TemporalStats.ApplyMarkedInv | scripts/analyze_temporal_kgs.py:98-127 | the Wikidata and YAGO branches keep their invariants |
| TemporalStats.MarkInv | scripts/analyze_temporal_kgs.py:102-103 | counting a marker keeps the invariant and leaves fewer counted years than temporal records |
| TemporalStats.YearInv | scripts/analyze_temporal_kgs.py:109-113 | counting a year after its marker keeps the invariant |
| TemporalStats.ProcessLineInv | scripts/analyze_temporal_kgs.py:133-150 | one line keeps the invariant and adds one triple exactly when it is kept |
| TemporalStats.ProcessLinesInv | scripts/analyze_temporal_kgs.py:130-151 | the record of a file keeps its convention's invariant and counts one triple per kept line |
| StatsMerge.MergeRanges | scripts/analyze_temporal_kgs.py:69-81 | when `other` sets its ranges on both ends, the merge takes the min and max of each range |
| StatsMerge.MergeUnpairedBounds | scripts/analyze_temporal_kgs.py:69-81 | only `other`'s lower bound is checked: a lone maximum is ignored, and a lone minimum brings no maximum |
| StatsMerge.MergeSetTogether | scripts/analyze_temporal_kgs.py:69-81 | merging keeps each range set on both ends or on neither |
| StatsMerge.MergeCounts | scripts/analyze_temporal_kgs.py:61-66 | every merged counter counts the sum of the two sides, key by key |
| StatsMerge.MergeCommutes | scripts/analyze_temporal_kgs.py:56-81 | merging `a` into `b` or `b` into `a` gives the same record up to counter key order |
| StatsMerge.MergeAssociates | scripts/analyze_temporal_kgs.py:56-81 | grouping merges either way gives the same record up to counter key order |
| StatsMerge.MergeRangesAssociate | scripts/analyze_temporal_kgs.py:69-81 | the ranges merge associatively |
| StatsMerge.MergeIdentityRight | scripts/analyze_temporal_kgs.py:56-81 | merging an empty record changes nothing |
| StatsMerge.MergeIdentityLeft | scripts/analyze_temporal_kgs.py:234-241 | merging a record into a fresh aggregate copies it exactly |
| StatsMerge.MergeInv | scripts/analyze_temporal_kgs.py:56-81 | two records of one convention merge into one of that convention |
| StatsMerge.MergeValid | scripts/analyze_temporal_kgs.py:61-66 | merging keeps the counters well formed |
| StatsMerge.MergeCountsInv | scripts/analyze_temporal_kgs.py:56-67 | merging keeps the counters consistent with the sets |
| StatsMerge.MergeKeysMatch | scripts/analyze_temporal_kgs.py:58-63 | merged counter keys are the merged sets |
| StatsMerge.MergeKeys | scripts/analyze_temporal_kgs.py:61-66 | each merged counter's keys are the union of both sides' keys |
| StatsMerge.MergeEntitySplit | scripts/analyze_temporal_kgs.py:61-63 | the entity counts stay subject plus object counts |
| StatsMerge.MergeTotalsMatch | scripts/analyze_temporal_kgs.py:57-64 | merged totals still match the merged triple count |
| StatsMerge.MergeTotals | scripts/analyze_temporal_kgs.py:61-66 | every merged counter's total is the sum of both totals |
| StatsMerge.MergeBounds | scripts/analyze_temporal_kgs.py:56-67 | the merged counts stay within the triple and record counts |
| StatsMerge.MergeRangeInv | scripts/analyze_temporal_kgs.py:69-81 | the merged ranges stay set together and in order |
| StatsMerge.MergeTypeInv | scripts/analyze_temporal_kgs.py:56-81 | merging fills only the temporal fields the convention can fill |
| StatsMerge.MergeYago | scripts/analyze_temporal_kgs.py:65-81 | YAGO years stay below 10000 and the year range stays at the counted years |
| StatsMerge.MergeGeneric | scripts/analyze_temporal_kgs.py:56-81 | generic records stay without temporal information |
| StatsMerge.MergeDatesTracked | scripts/analyze_temporal_kgs.py:65-75 | the merged date range is the earliest and latest counted date |
| StatsMerge.MergeYearsTracked | scripts/analyze_temporal_kgs.py:65-81 | the merged ICEWS year counter stays the years of the dated lines |
| StatsMerge.MergeYearRange | scripts/analyze_temporal_kgs.py:65-81 | the merged year range is the least and greatest counted year |
| StatsMerge.YearRangeUnion | scripts/analyze_temporal_kgs.py:77-81 | the min and max of two key sets' ranges bound their union and are members of it |
| StatsMerge.MergeAllInv | scripts/analyze_temporal_kgs.py:234-241 | records of one convention merged in turn keep that convention's invariant |
| StatsMerge.MergeAllTriples | scripts/analyze_temporal_kgs.py:241 | the aggregate's triple count is the sum of the files' |
| StatsEngine.Stats.constructor | scripts/analyze_temporal_kgs.py:52-53 | `init_stats()` holds the empty record |
| StatsEngine.RecordYear | scripts/analyze_temporal_kgs.py:109-113 | the record changes exactly as `WithYear` says |
| StatsEngine.ParseTemporalTokens | scripts/analyze_temporal_kgs.py:84-127 | the record changes exactly as applying `Extract(tokens, t)` says |
| StatsEngine.ParseIcews | scripts/analyze_temporal_kgs.py:85-97 | the ICEWS branch changes the record as `Extract` reads the line |
| StatsEngine.ParseWikidata | scripts/analyze_temporal_kgs.py:98-113 | the Wikidata branch changes the record as `Extract` reads the line |
| StatsEngine.ParseYago | scripts/analyze_temporal_kgs.py:114-127 | the YAGO branch changes the record as `Extract` reads the line |
| StatsEngine.YagoYearOf | scripts/analyze_temporal_kgs.py:117-122 | loop helper, no claim of its own: the YAGO year is the value of the first four digits of the quote-stripped literal |
| StatsEngine.CountMarker | scripts/analyze_temporal_kgs.py:102-103 | a marker and one temporal record are counted, nothing else |
| StatsEngine.CountTriple | scripts/analyze_temporal_kgs.py:141-149 | the record changes exactly as `AddTriple` says |
| StatsEngine.CountOccurrences | scripts/analyze_temporal_kgs.py:145-149 | the four counters of one triple move, nothing else |
| StatsEngine.ProcessFile | scripts/analyze_temporal_kgs.py:130-151 | `process_file` returns a fresh record equal to `ProcessLines` of the file |
| StatsEngine.ProcessLinesStep | scripts/analyze_temporal_kgs.py:133-150 | loop helper, no claim of its own: one more line is one more `ProcessLine` |
| StatsEngine.ProcessLineOf | scripts/analyze_temporal_kgs.py:134-150 | loop helper, no claim of its own: `ProcessLine` skips blank and short lines and otherwise counts the triple, then its temporal columns |
| StatsEngine.MergeStats | scripts/analyze_temporal_kgs.py:56-81 | `merge_stats(acc, other)` leaves `acc` equal to `Merge` of the two old records, even when both are one object |
| StatsEngine.MergeSums | scripts/analyze_temporal_kgs.py:57-67 | the sums and the set unions, nothing else |
| StatsEngine.UpdateEntityCounters | scripts/analyze_temporal_kgs.py:61-63 | the subject, object and entity counters are updated, nothing else |
| StatsEngine.UpdateOtherCounters | scripts/analyze_temporal_kgs.py:64-66 | the relation, year and marker counters are updated, nothing else |
| StatsEngine.MergeDatesInto | scripts/analyze_temporal_kgs.py:69-75 | the date bounds change as the two nested tests say |
| StatsEngine.MergeYearsInto | scripts/analyze_temporal_kgs.py:77-81 | the year bounds change as the two nested tests say |
| Summaries.IsoOrNone | scripts/analyze_temporal_kgs.py:167-168 | a date becomes a ten-character ISO string that reads back as the same date; no date stays `None` |
| Summaries.Summarize | scripts/analyze_temporal_kgs.py:154-171 | the summary's dates are present exactly when the record's are, and read back as them |
| Summaries.InvSummarizable | scripts/analyze_temporal_kgs.py:154-171 | every record the engine builds can be summarised |
| Summaries.SummarizeLengths | scripts/analyze_temporal_kgs.py:157-163 | each top list has `min(top_n, distinct keys)` entries |
| Summaries.TopCount | scripts/analyze_temporal_kgs.py:160-165 | `most_common(n)` lists `min(n, k)` of the `k` distinct keys |
| Summaries.SummarizeEntities | scripts/analyze_temporal_kgs.py:160 | a top entity's count is its subject count plus its object count; the list descends; no entity left out counts more |
| Summaries.SummarizeIcews | scripts/analyze_temporal_kgs.py:164-170 | an ICEWS summary has no markers, no temporal records and no year span |
| Summaries.SummarizeYearConventions | scripts/analyze_temporal_kgs.py:167-168 | Wikidata and YAGO summaries have no date range |
| Summaries.SummarizeGeneric | scripts/analyze_temporal_kgs.py:164-170 | a generic summary has no temporal information |
| Summaries.Kinds | scripts/analyze_temporal_kgs.py:174-210 | the kind of each printed line, in order |
| Summaries.KindsAppend | scripts/analyze_temporal_kgs.py:174-210 | loop helper, no claim of its own: one more line adds its kind last |
| Summaries.PrintedKinds | scripts/analyze_temporal_kgs.py:176-209 | the heading and totals are always printed; every other kind is printed exactly when its part of the summary is non-empty |
| Summaries.PrintedInOrder | scripts/analyze_temporal_kgs.py:176-209 | the kinds are printed in a fixed increasing order, none twice |
| Summaries.PrintIfPresent | scripts/analyze_temporal_kgs.py:183-209 | an optional line is added exactly when its part is present, and it shows that part |
| Summaries.Humanize | scripts/analyze_temporal_kgs.py:174-210 | `humanize` prints exactly the kinds `Printed` lists, each in order and showing the summary's values |
| Analysis.KeepTxt | scripts/analyze_temporal_kgs.py:237-238 | keeps exactly the names ending with `.txt` |
| Analysis.KeepTxtStep | scripts/analyze_temporal_kgs.py:236-238 | loop helper, no claim of its own: one more name adds itself exactly when it ends with `.txt` |
| Analysis.TxtNames | scripts/analyze_temporal_kgs.py:236-238 | exactly the directory's `.txt` names |
| Analysis.FileRecords | scripts/analyze_temporal_kgs.py:240 | one `process_file` record per name |
| Analysis.Tagged | scripts/analyze_temporal_kgs.py:243 | one `(filename, value)` pair per name |
| Analysis.TaggedAt | scripts/analyze_temporal_kgs.py:243 | pair `i` is name `i` with its value |
| Analysis.TaggedSnoc | scripts/analyze_temporal_kgs.py:242-243 | loop helper, no claim of its own: one more name adds its pair last |
| Analysis.FileRecordsAt | scripts/analyze_temporal_kgs.py:240 | record `i` is `process_file` of file `i` |
| Analysis.FileRecordsInv | scripts/analyze_temporal_kgs.py:240 | every file record keeps its convention's invariant |
| Analysis.FileSummariesAt | scripts/analyze_temporal_kgs.py:242-243 | per-file entry `i` is file `i`'s name with `summarize(process_file(...))` |
| Analysis.AllFilesSnoc | scripts/analyze_temporal_kgs.py:236-240 | loop helper, no claim of its own: one more file keeps the names read so far all files |
| Analysis.ReadStep | scripts/analyze_temporal_kgs.py:240 | loop helper, no claim of its own: one more file adds its record last |
| Analysis.SummaryOfFile | scripts/analyze_temporal_kgs.py:243 | a file's summary is `summarize` of its own record |
| Analysis.SummaryStep | scripts/analyze_temporal_kgs.py:242-243 | loop helper, no claim of its own: one more file adds its summary last |
| Analysis.Aggregate | scripts/analyze_temporal_kgs.py:234-241 | the aggregate of the files keeps the convention's invariant |
| Analysis.ReportAggregate | scripts/analyze_temporal_kgs.py:241-245 | the aggregate's triple count is the sum of the files' |
| Analysis.ReportFiles | scripts/analyze_temporal_kgs.py:242-246 | with `per_file` the report lists every `.txt` file with its own summary, in order; without it the list is empty |
| Analysis.MergeAllSnoc | scripts/analyze_temporal_kgs.py:241 | loop helper, no claim of its own: merging one more record is one more `Merge` |
| Analysis.FirstFailureAt | scripts/analyze_temporal_kgs.py:231-248 | loop helper, no claim of its own: a failure at dataset `i` after all earlier datasets were read is the first failure |
| Analysis.ReadFiles | scripts/analyze_temporal_kgs.py:236-243 | the file loop fails exactly when a `.txt` name is a directory, naming the first such name in sorted order; otherwise the aggregate is the merge of the files' records and the per-file list their summaries |
| Analysis.ReadFile | scripts/analyze_temporal_kgs.py:239-243 | one file read, merged into the aggregate and, with `per_file`, summarised |
| Analysis.AnalyzeDataset | scripts/analyze_temporal_kgs.py:232-247 | one dataset yields `Report` of its directory, or fails exactly when a `.txt` name is a directory, naming the first one |
| Analysis.AnalyzeAll | scripts/analyze_temporal_kgs.py:231-248 | the dataset loop succeeds exactly when every selected dataset is readable; the result pairs each dataset, in order, with its `Report`; a failure names the first unreadable dataset and the first `.txt` directory in it |
| Analysis.PairsSnoc | scripts/analyze_temporal_kgs.py:244-247 | loop helper, no claim of its own: one more dataset adds its pair and keeps the earlier ones |
| Analysis.ReadableStep | scripts/analyze_temporal_kgs.py:231-247 | loop helper, no claim of its own: one more readable dataset keeps the datasets read so far readable |
| Analysis.ReportStep | scripts/analyze_temporal_kgs.py:244-247 | loop helper, no claim of its own: one more report keeps the results pointwise equal to `Report` |
| Analysis.Analyze | scripts/analyze_temporal_kgs.py:225-248 | fails with `NoDatasets` exactly when nothing is selected; succeeds exactly when every selected dataset is readable, pairing each, ascending, with its `Report`; a directory failure names the first unreadable selected dataset and the first `.txt` directory in it |
| YearlyTrends.TokensYear | scripts/plot_yearly_trends.py:54-76 | a line with fewer than four columns counts no year |
| YearlyTrends.LineYearAgrees | scripts/plot_yearly_trends.py:46-77 | for ICEWS, Wikidata and YAGO, a line moves the extractor's count exactly as it moves the engine's `year_counter` |
| YearlyTrends.ApplyYear | scripts/analyze_temporal_kgs.py:92-123 | the engine's year counter moves only by the year of the line's contribution |
| YearlyTrends.TokensYearAgrees | scripts/plot_yearly_trends.py:54-73 | the extractor's year of a triple line is the engine's |
| YearlyTrends.WikidataYearAgrees | scripts/plot_yearly_trends.py:64 | `int(tokens[4].strip())` gives the engine's Wikidata year, the empty string included |
| YearlyTrends.GenericDiffers | scripts/plot_yearly_trends.py:74-76 | a generic line counts a year exactly when its fourth column is all digits, although the engine counts no generic year |
| YearlyTrends.YearCounts | scripts/plot_yearly_trends.py:46-77 | the counter is well formed |
| YearlyTrends.YearCountsTotal | scripts/plot_yearly_trends.py:49-76 | each non-blank line counts at most one year |
| YearlyTrends.YearCountsAgree | scripts/plot_yearly_trends.py:46-77 | for ICEWS, Wikidata and YAGO a file's year counts equal the engine's `year_counter`, key order included |
| YearlyTrends.YearCountsForFile | scripts/plot_yearly_trends.py:46-77 | the loop computes `YearCounts` of the file's lines |
| YearlyTrends.Aggregate | scripts/plot_yearly_trends.py:80-86 | a successful aggregate is a well-formed counter |
| YearlyTrends.AggregateCounts | scripts/plot_yearly_trends.py:80-86 | the aggregate succeeds exactly when no `.txt` entry is a directory, and then counts each year as the sum over the `.txt` files |
| YearlyTrends.AggregateSucceeds | scripts/plot_yearly_trends.py:80-86 | success exactly when no `.txt` entry is a directory |
| YearlyTrends.TxtAreFilesSnoc | scripts/plot_yearly_trends.py:82-85 | loop helper, no claim of its own: one more name keeps the `.txt` entries files exactly when it is not a `.txt` directory |
| YearlyTrends.AggregateSums | scripts/plot_yearly_trends.py:85 | each year's aggregate count is the sum of the files' |
| YearlyTrends.YearSumRemove | scripts/plot_yearly_trends.py:82-85 | removing one name removes just its contribution |
| YearlyTrends.YearSumPermutation | scripts/plot_yearly_trends.py:82 | the sum does not depend on the order of the names |
| YearlyTrends.AggregateOrderFree | scripts/plot_yearly_trends.py:82-85 | in whatever order the files are read, the aggregate succeeds or fails the same and counts each year the same |
| YearlyTrends.AggregateYearCounts | scripts/plot_yearly_trends.py:80-86 | `aggregate_year_counts` is `Aggregate` over the sorted entries |
| YearlyTrends.AggregateNames | scripts/plot_yearly_trends.py:82-86 | the loop over the names computes `Aggregate` |
| YearlyTrends.AggregateNext | scripts/plot_yearly_trends.py:83-85 | loop helper, no claim of its own: a name is skipped unless it is a `.txt` entry, a `.txt` directory fails, and a `.txt` file is merged in |
| YearlyTrends.AggregateStep | scripts/plot_yearly_trends.py:82-85 | loop helper, no claim of its own: one more name is one more step of the loop |
| YearlyTrends.AggregateFailsAt | scripts/plot_yearly_trends.py:85 | a `.txt` directory ends the aggregate with its name |
| YearlyTrends.AggregateFailed | scripts/plot_yearly_trends.py:82-85 | once failed, more names keep the failure |
| YearlyTrends.DatasetAggregate | scripts/plot_yearly_trends.py:140-142 | loop helper, no claim of its own: a dataset's aggregate is its own directory's aggregate under its own convention |
| YearlyTrends.Aggregates | scripts/plot_yearly_trends.py:139-142 | loop helper, no claim of its own: the i-th aggregate belongs to the i-th selected dataset |
| YearlyTrends.PlotNext | scripts/plot_yearly_trends.py:142-147 | a failed aggregate stops the run naming its dataset; an empty one adds nothing; any other is plotted after the earlier ones |
| YearlyTrends.PlotLoop | scripts/plot_yearly_trends.py:139-147 | the loop can fail only on a `.txt` directory |
| YearlyTrends.PlotLoopFails | scripts/plot_yearly_trends.py:139-147 | the loop succeeds exactly when every aggregate succeeds, and a failure names the first failing dataset |
| YearlyTrends.PlotLoopSound | scripts/plot_yearly_trends.py:139-147 | each plotted pair is a name with its own non-empty aggregate, taken from strictly increasing positions (selection order) |
| YearlyTrends.PlotLoopComplete | scripts/plot_yearly_trends.py:139-147 | every name whose aggregate is non-empty is plotted |
| YearlyTrends.PlotLoopAppend | scripts/plot_yearly_trends.py:139-147 | looping over two selections in a row plots the first's pairs and then the second's, or fails with the first failure |
| YearlyTrends.PlotLoopOnce | scripts/plot_yearly_trends.py:139-147 | distinct names are plotted at most once each |
| YearlyTrends.Plots | scripts/plot_yearly_trends.py:139-147 | the plot loop can fail only on a `.txt` directory |
| YearlyTrends.PlotOfAt | scripts/plot_yearly_trends.py:139-147 | loop helper, no claim of its own: a selected dataset with its own non-empty aggregate is a plot of the selection |
| YearlyTrends.PlotsSound | scripts/plot_yearly_trends.py:139-147 | every plotted dataset was selected, has a non-empty aggregate, and holds the aggregate of its own directory under its own convention; empty aggregates are skipped |
| YearlyTrends.PlotsComplete | scripts/plot_yearly_trends.py:139-147 | the run fails exactly when some selected dataset has a `.txt` directory, naming the first such dataset; otherwise every selected dataset with a non-empty aggregate is plotted with that aggregate |
| YearlyTrends.PlotsAppend | scripts/plot_yearly_trends.py:139-147 | datasets are plotted in selection order: plotting `a + b` plots `a`'s datasets, then `b`'s, and fails with the first failure |
| YearlyTrends.PlotsOnce | scripts/plot_yearly_trends.py:139-147 | a selection naming each dataset once plots each at most once |
| YearlyTrends.PlotRun | scripts/plot_yearly_trends.py:135-137 | the run fails with `NoMatchingDatasets` exactly when nothing is selected |
| LabelMapping.IsEntityIdExamples | scripts/build_wikidata_label_mapping.py:45 | `Q42` is an identifier; `Q`, `Q12a` and `P31` are not |
| LabelMapping.Candidate | scripts/build_wikidata_label_mapping.py:44-46 | a cell contributes itself exactly when it is an identifier |
| LabelMapping.LineIds | scripts/build_wikidata_label_mapping.py:38-46 | only identifiers are collected |
| LabelMapping.LineIdsMembers | scripts/build_wikidata_label_mapping.py:38-46 | a line contributes exactly the identifiers among its first and third columns, and nothing when it is blank or short |
| LabelMapping.UnionOfMembers | scripts/build_wikidata_label_mapping.py:33-46 | an element of the union comes from some member |
| LabelMapping.FileIdsMembers | scripts/build_wikidata_label_mapping.py:37-46 | a file contributes exactly the identifiers of its lines |
| LabelMapping.CollectedSucceeds | scripts/build_wikidata_label_mapping.py:33-36 | collecting succeeds exactly when no `.txt` entry is a directory |
| LabelMapping.CollectedUnion | scripts/build_wikidata_label_mapping.py:31-47 | a successful collection is the union of what each entry contributes |
| LabelMapping.CollectedMembers | scripts/build_wikidata_label_mapping.py:31-47 | a successful collection holds the identifiers of the `.txt` files and nothing else |
| LabelMapping.CollectEntityIds | scripts/build_wikidata_label_mapping.py:31-47 | `collect_entity_ids` is `Collected` over the sorted entries |
| LabelMapping.CollectFromLines | scripts/build_wikidata_label_mapping.py:37-46 | the inner loop adds exactly the file's identifiers |
| LabelMapping.CollectedStep | scripts/build_wikidata_label_mapping.py:33-46 | loop helper, no claim of its own: one more entry skips, fails or adds that file's identifiers |
| LabelMapping.CollectedFailsAt | scripts/build_wikidata_label_mapping.py:36 | a `.txt` directory ends the collection with its name |
| LabelMapping.CollectedFailed | scripts/build_wikidata_label_mapping.py:33-36 | once failed, more entries keep the failure |
| LabelMapping.BatchesSizes | scripts/build_wikidata_label_mapping.py:50-56 | with a positive size, the batches are non-empty, and all but the last hold exactly `size` elements |
| LabelMapping.BatchesConcat | scripts/build_wikidata_label_mapping.py:50-56 | the batches, joined, are the input |
| LabelMapping.BatchesCount | scripts/build_wikidata_label_mapping.py:50-56 | there are `ceil(len / size)` batches, and none for empty input |
| LabelMapping.Batched | scripts/build_wikidata_label_mapping.py:50-56 | the generator loop yields `Batches`; size 0 yields nothing |
| LabelMapping.FetchedLaterWins | scripts/build_wikidata_label_mapping.py:98-100 | a key takes the label of the last answer holding it |
| LabelMapping.FetchedKeys | scripts/build_wikidata_label_mapping.py:98-100 | every mapped key comes from some answer |
| LabelMapping.Progress | scripts/build_wikidata_label_mapping.py:103-105 | the progress count never exceeds the total and reaches it once all batches are covered |
| LabelMapping.BuildMapping | scripts/build_wikidata_label_mapping.py:91-108 | fails with `NoEntityIds` exactly when none was collected; otherwise the mapping is the ordered merge of the batch answers, with one non-decreasing progress count per batch, ending at the total |
| LabelMapping.BuildRun | scripts/build_wikidata_label_mapping.py:91-146 | a `.txt` directory in the dataset folder fails the run naming it; no identifiers is fatal exactly when collection succeeds with none; otherwise the mapping is the merged answers to the sorted batches and the output lines are its sorted rendering |
| LabelMapping.RenderMapping | scripts/build_wikidata_label_mapping.py:144-146 | one `id<TAB>label` line per entry; line `i` holds the `i`-th identifier of the mapping in strictly ascending order, so each entry appears once, sorted by id |
| JoinLabels.ResolveDelimiter | scripts/join_entity_labels.py:21-33 | one character is used as is; otherwise the decoded argument must be one character; a decoding error keeps the argument; any failure names it |
| JoinLabels.CsvRow | scripts/join_entity_labels.py:39-40 | an empty line is an empty row; otherwise the cells joined by the delimiter are the line |
| JoinLabels.CsvRowJoin | scripts/join_entity_labels.py:39-40 | delimiter-free cells, other than one empty cell, are read back from their joined line |
| JoinLabels.JoinEmpty | scripts/join_entity_labels.py:41-42 | only one empty cell joins to the empty line |
| JoinLabels.RowEntry | scripts/join_entity_labels.py:41-47 | a row gives an entry exactly when its stripped first cell is non-empty; the label is the stripped second cell, or `""` |
| JoinLabels.AssignDomain | scripts/join_entity_labels.py:40-47 | the keys are exactly those of the present entries |
| JoinLabels.AssignLastWins | scripts/join_entity_labels.py:47 | a key takes the label of the last entry holding it |
| JoinLabels.Entries | scripts/join_entity_labels.py:40-47 | the entry of each row, in order |
| JoinLabels.MappingDomain | scripts/join_entity_labels.py:36-48 | the mapping's keys are exactly the stripped non-empty first cells |
| JoinLabels.MappingLastWins | scripts/join_entity_labels.py:47 | for a duplicated key, the last row decides |
| JoinLabels.AssignValues | scripts/join_entity_labels.py:47 | every stored pair comes from one entry |
| JoinLabels.MappingStripped | scripts/join_entity_labels.py:43-46 | keys are non-empty, and keys and labels are stored stripped |
| JoinLabels.RowEntryStripped | scripts/join_entity_labels.py:43-46 | a row's entry is already stripped |
| JoinLabels.LoadMapping | scripts/join_entity_labels.py:36-48 | `load_mapping` builds `MappingOf` the file's rows |
| JoinLabels.MappingSnoc | scripts/join_entity_labels.py:40-47 | loop helper, no claim of its own: one more row sets its key or changes nothing |
| JoinLabels.RowsOf | scripts/join_entity_labels.py:39-40 | one row per line |
| JoinLabels.RowsOfStep | scripts/join_entity_labels.py:40 | loop helper, no claim of its own: one more line adds its row last |
| JoinLabels.RenderLoadRoundTrip | scripts/build_wikidata_label_mapping.py:144-146 | reading the builder's mapping file back with a tab delimiter gives the same mapping, for clean ids and labels |
| JoinLabels.RenderedEntries | scripts/build_wikidata_label_mapping.py:144-146 | the file reads back as one entry per identifier, ascending |
| JoinLabels.AssignListed | scripts/join_entity_labels.py:40-47 | entries listing each key once with its value assign exactly that mapping |
| JoinLabels.RenderedRows | scripts/build_wikidata_label_mapping.py:144-146 | the rows read back are `[id, label]`, ascending |
| JoinLabels.RenderedRow | scripts/build_wikidata_label_mapping.py:145-146 | row `i` reads back as identifier `i` and its label |
| JoinLabels.RenderedLine | scripts/build_wikidata_label_mapping.py:145-146 | line `i` is identifier `i`, a tab and its label |
| JoinLabels.EntryOfLine | scripts/join_entity_labels.py:41-47 | one written line reads back as its identifier and label |
| JoinLabels.TwoCells | scripts/join_entity_labels.py:39-40 | two delimiter-free cells joined by the delimiter read back as those two |
| JoinLabels.FileLines | scripts/join_entity_labels.py:38-40 | the reader sees each written line without its newline |
| JoinLabels.AttachRow | scripts/join_entity_labels.py:66-73 | a row of fewer than three cells is written unchanged; otherwise the subject and object labels (or the placeholder) go after the third cell, and the rest follows |
| JoinLabels.AttachRowInverse | scripts/join_entity_labels.py:66-73 | taking the two label cells out again gives the row read |
| JoinLabels.AttachLabels | scripts/join_entity_labels.py:61-73 | every row is rewritten by `AttachRow`, in order |
| JoinLabels.DefaultOutput | scripts/join_entity_labels.py:58-59 | the default output is `<name>.labeled`, and `with_suffix` fails on an empty name |
| JoinLabels.LabeledSuffix | scripts/join_entity_labels.py:59 | the suffix passed to `with_suffix` is valid and rebuilds the name plus `.labeled` |
| JoinLabels.JoinRun | scripts/join_entity_labels.py:107-113 | a bad delimiter and an empty mapping are fatal, and the run succeeds exactly when neither happens and an output name exists (given, or a non-empty dataset name); then every dataset row is rewritten with the loaded mapping, into the given or default output name |
| TailSampling.LineTriple | scripts/sample_tail_entities.py:22-28 | a line gives a triple exactly when it is kept |
| TailSampling.Triples | scripts/sample_tail_entities.py:18-29 | at most one triple per line |
| TailSampling.TriplesKept | scripts/sample_tail_entities.py:18-29 | the triples are the first three columns of the kept rows, one for one, in order |
| TailSampling.TriplesConcat | scripts/sample_tail_entities.py:20-28 | loading two pieces of a file gives both pieces' triples, in order |
| TailSampling.TriplesStep | scripts/sample_tail_entities.py:20-28 | loop helper, no claim of its own: one more line adds its triple, if any |
| TailSampling.LoadTriples | scripts/sample_tail_entities.py:18-29 | `load_triples` computes `Triples` of the lines |
| TailSampling.Frequencies | scripts/sample_tail_entities.py:33-36 | the counter is well formed |
| TailSampling.Mentions | scripts/sample_tail_entities.py:34-36 | two mentions per triple |
| TailSampling.FirstSeen | scripts/sample_tail_entities.py:37 | each mentioned entity once, nothing else |
| TailSampling.FrequencyOccurrences | scripts/sample_tail_entities.py:33-36 | an entity's count is its number of subject and object occurrences |
| TailSampling.FrequenciesTotal | scripts/sample_tail_entities.py:33-36 | the counts add up to two per triple |
| TailSampling.FrequencyKeys | scripts/sample_tail_entities.py:33-37 | `counter.items()` lists entities in first-seen order |
| TailSampling.AtMostMembers | scripts/sample_tail_entities.py:37 | the filter keeps exactly the keys at or under the threshold, each once |
| TailSampling.FirstIndex | scripts/sample_tail_entities.py:33-37 | the position of a value's first occurrence: it holds the value and no earlier position does |
| TailSampling.FirstSeenOrdered | scripts/sample_tail_entities.py:33-37 | the counter's keys come in the order of their first occurrences |
| TailSampling.AtMostOrder | scripts/sample_tail_entities.py:37 | the comprehension keeps the keys in their order, from strictly increasing positions |
| TailSampling.TailEntitiesOrdered | scripts/sample_tail_entities.py:32-37 | the tail entities are listed in the order they are first seen as a subject or an object |
| TailSampling.TailEntitiesExactly | scripts/sample_tail_entities.py:32-37 | the tail is exactly the entities seen between once and `max_frequency` times, each once |
| TailSampling.PositiveCounts | scripts/sample_tail_entities.py:33-36 | every counted entity has a positive count |
| TailSampling.OccursIn | scripts/sample_tail_entities.py:34-36 | an entity that occurs is the subject or object of some triple |
| TailSampling.FindTailEntities | scripts/sample_tail_entities.py:32-37 | the loop and the comprehension compute `TailEntities` |
| TailSampling.TailTriplesMembers | scripts/sample_tail_entities.py:45-46 | the filter keeps exactly the triples whose subject or object is a tail entity |
| TailSampling.TailTriplesConcat | scripts/sample_tail_entities.py:46 | the filter keeps file order |
| TailSampling.TailTriplesSplit | scripts/sample_tail_entities.py:46 | kept and dropped triples together are the input, as a multiset |
| TailSampling.TailTriplesCount | scripts/sample_tail_entities.py:46 | kept plus dropped is the input length |
| TailSampling.TailCovered | scripts/sample_tail_entities.py:88-93 | when there is a tail entity there is a tail triple |
| TailSampling.FirstPositions | scripts/sample_tail_entities.py:49 | the first `size` positions |
| TailSampling.SampleTailTriples | scripts/sample_tail_entities.py:40-49 | all tail triples when at most `sample_size`; otherwise `sample_size` of them from distinct positions; a negative size fails; every sampled triple is a tail triple of the input |
| TailSampling.TailRun | scripts/sample_tail_entities.py:84-97 | no triples is fatal; no tail entity ends the run; otherwise the tail is `TailEntities` and the samples are as `SampleTailTriples` says, non-empty unless the size is 0 |

## Left out

- Reading files and listing directories: a file is its list of lines, and a directory is a map from names to nodes. Encoding errors and permission errors are not modelled. A `.txt` name that is a directory is modelled, as the one `open` failure the directory tree can show.
- Command-line parsing (`argparse`), `print`, `sys.stderr` and the JSON dump: not modelled. The values they would show are the results of the modelled functions.
- `fetch_labels` (scripts/build_wikidata_label_mapping.py:59-88): the HTTP request, TLS settings and JSON decoding are left out. The label lookup is a parameter `fetch` of `LabelMapping.BuildMapping`. `time.sleep` between requests is left out.
- `plot_year_counts` (scripts/plot_yearly_trends.py:89-103) and the `matplotlib` import check: plotting is left out. `YearlyTrends.Plots` returns what would be plotted.
- The base-directory existence check and `mkdir` of the output directory in `plot_yearly_trends.py` and `build_wikidata_label_mapping.py`: file-system effects, left out.
- `random.sample` and `random.seed`: the draw is a nondeterministic choice of distinct positions. `TailSampling.SampleTailTriples` promises only that the sample has the requested size and comes from distinct positions of the tail triples; it does not say which positions.
- Unicode: `str.isdigit`, `str.lower` and `int()` are modelled on ASCII only. Unicode digits and non-ASCII case mappings are left out. `str.strip()` uses the full set of characters `str.isspace` accepts.
- `int()` is modelled on an already stripped string. The model accepts an optional sign and digit groups separated by single underscores. Other bases and Unicode digits are left out.
- `datetime.strptime` is modelled on `%Y-%m-%d` with years 1 to 9999 written as exactly four digits. Months and days may drop their leading zero, and the day may be blank-padded.
- `csv.reader` and `csv.writer` are modelled as splitting and joining at the delimiter. Quoting, escaping and embedded newlines are left out. The `unicode_escape` decoding of the delimiter argument is a parameter.
- The `{:,}` thousands formatting and the exact text of `humanize` lines are left out. `Summaries.Humanize` returns the line kinds with the values each shows.
- Python's dictionary insertion order of the `results` and `files` dictionaries is kept as the order of the result sequences. Overwriting an earlier key is not modelled, because the names come from one directory listing and are distinct.
- Integer widths: Python integers are unbounded, as are Dafny's, so nothing wraps.
- `Text.ParseInt`: does not model the limit of 4300 digits that Python 3.11 and later place on `int()` of a decimal string. Past that limit `int()` raises `ValueError`. The analyser (scripts/analyze_temporal_kgs.py:105-108) and the Wikidata branch of the yearly trends (scripts/plot_yearly_trends.py:63-66) then count no year, and the generic branch of the yearly trends (scripts/plot_yearly_trends.py:75-76) aborts the script. The model parses a string of any length, so on such a line it counts a year. The limit depends on the interpreter's version and settings, so it is left out.
