/** The `Stats` record as the statistics engine keeps it: an object whose
    fields `process_file`, `parse_temporal_tokens` and `merge_stats` update
    in place, each method proved to change it exactly as the matching
    function of `TemporalStats` or `StatsMerge` says. */
module StatsEngine {
  import opened Wrappers
  import opened Text
  import opened Counters
  import opened Dates
  import opened Rows
  import opened Datasets
  import opened TemporalStats
  import opened StatsMerge

  /** The `Stats` dataclass: running statistics of one split or dataset. */
  class Stats {
    var triples: nat
    var subjects: set<string>
    var objects: set<string>
    var relations: set<string>
    var subjectCounter: Counter<string>
    var objectCounter: Counter<string>
    var entityCounter: Counter<string>
    var relationCounter: Counter<string>
    var yearCounter: Counter<int>
    var markerCounter: Counter<string>
    var temporalRecords: nat
    var minDate: Option<Date>
    var maxDate: Option<Date>
    var minYear: Option<int>
    var maxYear: Option<int>

    /** `init_stats()`: the default field values. */
    constructor()
      ensures Value() == Init()
    {
      triples := 0;
      subjects, objects, relations := {}, {}, {};
      subjectCounter, objectCounter, entityCounter, relationCounter := Empty(), Empty(), Empty(), Empty();
      yearCounter, markerCounter := Empty(), Empty();
      temporalRecords := 0;
      minDate, maxDate, minYear, maxYear := None, None, None, None;
    }

    /** The fields, as a value. */
    function Value(): StatsValue
      reads this
    {
      StatsValue(triples, subjects, objects, relations, subjectCounter, objectCounter,
                 entityCounter, relationCounter, yearCounter, markerCounter, temporalRecords,
                 minDate, maxDate, minYear, maxYear)
    }
  }

  /** Lines 109-113 and 123-127: count a year and widen the year range. */
  method RecordYear(stats: Stats, year: int)
    modifies stats
    ensures stats.Value() == WithYear(old(stats.Value()), year)
  {
    stats.yearCounter := Inc(stats.yearCounter, year);
    if stats.minYear.None? || year < stats.minYear.value {
      stats.minYear := Some(year);
    }
    if stats.maxYear.None? || year > stats.maxYear.value {
      stats.maxYear := Some(year);
    }
  }

  /** `parse_temporal_tokens(tokens, dataset_type, stats)`: the columns
      after the third change `stats` as `Extract` reads them. */
  method ParseTemporalTokens(tokens: seq<string>, t: DatasetType, stats: Stats)
    modifies stats
    ensures stats.Value() == Apply(old(stats.Value()), Extract(tokens, t))
  {
    match t
    case Icews => ParseIcews(tokens, stats);
    case Wikidata => ParseWikidata(tokens, stats);
    case Yago => ParseYago(tokens, stats);
    case Generic =>
  }

  /** Lines 85-97: an ICEWS date in the fourth column. */
  method ParseIcews(tokens: seq<string>, stats: Stats)
    modifies stats
    ensures stats.Value() == Apply(old(stats.Value()), Extract(tokens, Icews))
  {
    if |tokens| >= 4 {
      var parsed := ParseDate(tokens[3]);
      if parsed.None? {
        return;
      }
      var date := parsed.value;
      stats.yearCounter := Inc(stats.yearCounter, date.year);
      if stats.minDate.None? || Before(date, stats.minDate.value) {
        stats.minDate := Some(date);
      }
      if stats.maxDate.None? || Before(stats.maxDate.value, date) {
        stats.maxDate := Some(date);
      }
    }
  }

  /** Lines 98-113: a Wikidata marker and, when the fifth column reads as
      an integer, its year. */
  method ParseWikidata(tokens: seq<string>, stats: Stats)
    modifies stats
    ensures stats.Value() == Apply(old(stats.Value()), Extract(tokens, Wikidata))
  {
    if |tokens| >= 5 {
      var marker := tokens[3];
      var yearToken := Strip(tokens[4]);
      CountMarker(stats, marker);
      if yearToken != "" {
        var year := ParseInt(yearToken);
        if year.None? {
          return;
        }
        RecordYear(stats, year.value);
      }
    }
  }

  /** Lines 114-127: a YAGO marker and the year of the first four digits of
      the fifth column. */
  method ParseYago(tokens: seq<string>, stats: Stats)
    modifies stats
    ensures stats.Value() == Apply(old(stats.Value()), Extract(tokens, Yago))
  {
    if |tokens| >= 5 {
      var marker := StripChars(tokens[3], MarkerTrim);
      var dateToken := StripChars(tokens[4], QuoteTrim);
      CountMarker(stats, marker);
      var digits := DigitsOf(dateToken);
      YagoYearOf(tokens[4]);
      if |digits| >= 4 {
        RecordYear(stats, DecimalValue(digits[..4]));
      }
    }
  }

  lemma YagoYearOf(token: string)
    ensures var digits := DigitsOf(StripChars(token, QuoteTrim));
      YagoYear(token) == if |digits| >= 4 then Some(DecimalValue(digits[..4])) else None
  {
  }

  /** Lines 102-103 and 118-119: count a marker and a temporal record. */
  method CountMarker(stats: Stats, marker: string)
    modifies stats
    ensures stats.Value() == Mark(old(stats.Value()), marker)
  {
    stats.markerCounter := Inc(stats.markerCounter, marker);
    stats.temporalRecords := stats.temporalRecords + 1;
  }

  /** Lines 141-149: count the triple `(subj, rel, obj)`. */
  method CountTriple(stats: Stats, subj: string, rel: string, obj: string)
    modifies stats
    ensures stats.Value() == AddTriple(old(stats.Value()), subj, rel, obj)
  {
    stats.triples := stats.triples + 1;
    stats.subjects := stats.subjects + {subj};
    stats.objects := stats.objects + {obj};
    stats.relations := stats.relations + {rel};
    CountOccurrences(stats, subj, rel, obj);
  }

  /** Lines 145-149: the counters of one triple. */
  method CountOccurrences(stats: Stats, subj: string, rel: string, obj: string)
    modifies stats
    ensures stats.Value() == old(stats.Value()).(
      subjectCounter := Inc(old(stats.subjectCounter), subj),
      objectCounter := Inc(old(stats.objectCounter), obj),
      entityCounter := Inc(Inc(old(stats.entityCounter), subj), obj),
      relationCounter := Inc(old(stats.relationCounter), rel))
  {
    stats.subjectCounter := Inc(stats.subjectCounter, subj);
    stats.objectCounter := Inc(stats.objectCounter, obj);
    stats.entityCounter := Inc(stats.entityCounter, subj);
    stats.entityCounter := Inc(stats.entityCounter, obj);
    stats.relationCounter := Inc(stats.relationCounter, rel);
  }

  /** `process_file(path, dataset_type)` on the file's lines: a new record
      holding what `ProcessLines` says, hence one triple per kept line and
      the invariant of convention `t`. */
  method ProcessFile(lines: seq<string>, t: DatasetType) returns (stats: Stats)
    ensures fresh(stats)
    ensures stats.Value() == ProcessLines(lines, t)
  {
    stats := new Stats();
    for i := 0 to |lines|
      invariant stats.Value() == ProcessLines(lines[..i], t)
    {
      ProcessLinesStep(lines, i, t);
      ProcessLineOf(stats.Value(), lines[i], t);
      var line := Strip(lines[i]);
      if line == "" {
        continue;
      }
      var tokens := Split(line, '\t');
      if |tokens| < 3 {
        continue;
      }
      var subj, rel, obj := tokens[0], tokens[1], tokens[2];
      CountTriple(stats, subj, rel, obj);
      ParseTemporalTokens(tokens, t, stats);
    }
    assert lines[..|lines|] == lines;
  }

  /** One more line is one more `ProcessLine`. */
  lemma ProcessLinesStep(lines: seq<string>, i: nat, t: DatasetType)
    requires i < |lines|
    ensures ProcessLines(lines[..i + 1], t) == ProcessLine(ProcessLines(lines[..i], t), lines[i], t)
  {
    assert lines[..i + 1][..i] == lines[..i];
  }

  /** `ProcessLine` spelled as the loop body of `process_file` reads it. */
  lemma ProcessLineOf(v: StatsValue, raw: string, t: DatasetType)
    ensures ProcessLine(v, raw, t) ==
      if Strip(raw) == "" then v
      else
        var tokens := Split(Strip(raw), '\t');
        if |tokens| < 3 then v
        else Apply(AddTriple(v, tokens[0], tokens[1], tokens[2]), Extract(tokens, t))
  {
  }

  /** `merge_stats(acc, other)`: `acc` becomes `Merge` of the two records.
      Each field of `other` is read before the same field of `acc` is
      written, so the result holds even when both are one object. */
  method MergeStats(acc: Stats, other: Stats)
    modifies acc
    ensures acc.Value() == Merge(old(acc.Value()), old(other.Value()))
  {
    var s, o, e, r := other.subjectCounter, other.objectCounter, other.entityCounter, other.relationCounter;
    var y, m := other.yearCounter, other.markerCounter;
    var lo, hi, yearLo, yearHi := other.minDate, other.maxDate, other.minYear, other.maxYear;
    MergeSums(acc, other);
    UpdateEntityCounters(acc, s, o, e);
    UpdateOtherCounters(acc, r, y, m);
    MergeDatesInto(acc, lo, hi);
    MergeYearsInto(acc, yearLo, yearHi);
  }

  /** Lines 57-60 and 67: the sums and the set unions. */
  method MergeSums(acc: Stats, other: Stats)
    modifies acc
    ensures acc.Value() == old(acc.Value()).(
      triples := old(acc.triples) + old(other.triples),
      subjects := old(acc.subjects) + old(other.subjects),
      objects := old(acc.objects) + old(other.objects),
      relations := old(acc.relations) + old(other.relations),
      temporalRecords := old(acc.temporalRecords) + old(other.temporalRecords))
  {
    acc.triples := acc.triples + other.triples;
    acc.subjects := acc.subjects + other.subjects;
    acc.objects := acc.objects + other.objects;
    acc.relations := acc.relations + other.relations;
    acc.temporalRecords := acc.temporalRecords + other.temporalRecords;
  }

  /** Lines 61-63. */
  method UpdateEntityCounters(acc: Stats, s: Counter<string>, o: Counter<string>, e: Counter<string>)
    modifies acc
    ensures acc.Value() == old(acc.Value()).(
      subjectCounter := Update(old(acc.subjectCounter), s),
      objectCounter := Update(old(acc.objectCounter), o),
      entityCounter := Update(old(acc.entityCounter), e))
  {
    acc.subjectCounter := Update(acc.subjectCounter, s);
    acc.objectCounter := Update(acc.objectCounter, o);
    acc.entityCounter := Update(acc.entityCounter, e);
  }

  /** Lines 64-66. */
  method UpdateOtherCounters(acc: Stats, r: Counter<string>, y: Counter<int>, m: Counter<string>)
    modifies acc
    ensures acc.Value() == old(acc.Value()).(
      relationCounter := Update(old(acc.relationCounter), r),
      yearCounter := Update(old(acc.yearCounter), y),
      markerCounter := Update(old(acc.markerCounter), m))
  {
    acc.relationCounter := Update(acc.relationCounter, r);
    acc.yearCounter := Update(acc.yearCounter, y);
    acc.markerCounter := Update(acc.markerCounter, m);
  }

  /** Lines 69-75, given `other`'s date bounds. */
  method MergeDatesInto(acc: Stats, lo: Option<Date>, hi: Option<Date>)
    modifies acc
    ensures acc.Value() == old(acc.Value()).(
      minDate := if lo.Some? && (old(acc.minDate).None? || Before(lo.value, old(acc.minDate).value)) then lo else old(acc.minDate),
      maxDate := if lo.Some? && (old(acc.maxDate).None? || (hi.Some? && Before(old(acc.maxDate).value, hi.value))) then hi else old(acc.maxDate))
  {
    if lo.Some? {
      if acc.minDate.None? || Before(lo.value, acc.minDate.value) {
        acc.minDate := lo;
      }
      if acc.maxDate.None? || (hi.Some? && Before(acc.maxDate.value, hi.value)) {
        acc.maxDate := hi;
      }
    }
  }

  /** Lines 77-81, given `other`'s year bounds. */
  method MergeYearsInto(acc: Stats, lo: Option<int>, hi: Option<int>)
    modifies acc
    ensures acc.Value() == old(acc.Value()).(
      minYear := if lo.Some? && (old(acc.minYear).None? || lo.value < old(acc.minYear).value) then lo else old(acc.minYear),
      maxYear := if lo.Some? && (old(acc.maxYear).None? || (hi.Some? && hi.value > old(acc.maxYear).value)) then hi else old(acc.maxYear))
  {
    if lo.Some? {
      if acc.minYear.None? || lo.value < acc.minYear.value {
        acc.minYear := lo;
      }
      if acc.maxYear.None? || (hi.Some? && hi.value > acc.maxYear.value) {
        acc.maxYear := hi;
      }
    }
  }
}
