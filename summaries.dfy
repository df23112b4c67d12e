/** `summarize` and `humanize`: the JSON-ready summary of a record and the
    lines printed for it. */
module Summaries {
  import opened Wrappers
  import opened Text
  import opened Counters
  import opened Dates
  import opened Datasets
  import opened TemporalStats

  /** The dictionary `summarize` returns, one field per key. */
  datatype Summary = Summary(
    triples: nat,
    uniqueSubjects: nat,
    uniqueObjects: nat,
    uniqueRelations: nat,
    topEntities: seq<(string, nat)>,
    topSubjects: seq<(string, nat)>,
    topObjects: seq<(string, nat)>,
    topRelations: seq<(string, nat)>,
    topYears: seq<(int, nat)>,
    temporalMarkers: seq<(string, nat)>,
    temporalRecords: nat,
    minDate: Option<string>,
    maxDate: Option<string>,
    minYear: Option<int>,
    maxYear: Option<int>)

  /** The dates a record holds are real dates. */
  ghost predicate DatesValid(v: StatsValue)
  {
    (v.minDate.Some? ==> ValidDate(v.minDate.value)) && (v.maxDate.Some? ==> ValidDate(v.maxDate.value))
  }

  /** `d.isoformat() if d else None`: an ISO string that reads back as the
      same date. */
  function IsoOrNone(d: Option<Date>): (s: Option<string>)
    requires d.Some? ==> ValidDate(d.value)
    ensures s.Some? <==> d.Some?
    ensures s.Some? ==> |s.value| == 10 && ParseDate(s.value) == d
  {
    match d
    case None => None
    case Some(date) =>
      ParseIsoFormat(date);
      Some(IsoFormat(date))
  }

  /** The length of `most_common(n)` on a counter of `k` keys. */
  function TopLength(n: int, k: nat): nat
  {
    if n <= 0 then 0 else if n < k then n else k
  }

  /** `summarize(stats, top_n)`. */
  function Summarize(v: StatsValue, topN: int): (s: Summary)
    requires CountersValid(v) && DatesValid(v)
    ensures s.minDate.Some? <==> v.minDate.Some?
    ensures s.maxDate.Some? <==> v.maxDate.Some?
    ensures s.minDate.Some? ==> ParseDate(s.minDate.value) == v.minDate
    ensures s.maxDate.Some? ==> ParseDate(s.maxDate.value) == v.maxDate
  {
    Summary(
      v.triples, |v.subjects|, |v.objects|, |v.relations|,
      MostCommon(v.entityCounter, topN),
      MostCommon(v.subjectCounter, topN),
      MostCommon(v.objectCounter, topN),
      MostCommon(v.relationCounter, topN),
      MostCommon(v.yearCounter, topN),
      MostCommon(v.markerCounter, topN),
      v.temporalRecords,
      IsoOrNone(v.minDate), IsoOrNone(v.maxDate),
      v.minYear, v.maxYear)
  }

  /** Every record the engine builds can be summarised. */
  lemma InvSummarizable(v: StatsValue, t: DatasetType)
    requires Inv(v, t)
    ensures CountersValid(v) && DatesValid(v)
  {
  }

  /** The entity, subject, object and relation lists have `min(top_n, k)`
      entries for `k` distinct keys, where the keys are those of the sets
      the record keeps. */
  lemma SummarizeLengths(v: StatsValue, topN: int)
    requires CountsInv(v) && DatesValid(v)
    ensures var s := Summarize(v, topN);
      && |s.topEntities| == TopLength(topN, |v.subjects + v.objects|)
      && |s.topSubjects| == TopLength(topN, |v.subjects|)
      && |s.topObjects| == TopLength(topN, |v.objects|)
      && |s.topRelations| == TopLength(topN, |v.relations|)
  {
    var s := Summarize(v, topN);
    assert |s.topEntities| == TopLength(topN, |v.subjects + v.objects|) by { TopCount(v.entityCounter, topN); }
    assert |s.topSubjects| == TopLength(topN, |v.subjects|) by { TopCount(v.subjectCounter, topN); }
    assert |s.topObjects| == TopLength(topN, |v.objects|) by { TopCount(v.objectCounter, topN); }
    assert |s.topRelations| == TopLength(topN, |v.relations|) by { TopCount(v.relationCounter, topN); }
  }

  /** `most_common(n)` lists `min(n, k)` of the `k` distinct keys. */
  lemma TopCount<K(!new)>(c: Counter<K>, n: int)
    requires Valid(c)
    ensures |MostCommon(c, n)| == TopLength(n, |c.counts.Keys|)
  {
    KeyCount(c);
  }

  /** Each listed entity carries its subject count plus its object count,
      and the list is ranked: non-increasing, and no entity left out is
      counted more than any listed one. */
  lemma SummarizeEntities(v: StatsValue, topN: int)
    requires CountsInv(v) && DatesValid(v)
    ensures var top := Summarize(v, topN).topEntities;
      && (forall i :: 0 <= i < |top| ==>
            top[i].1 == Get(v.subjectCounter, top[i].0) + Get(v.objectCounter, top[i].0))
      && (forall i, j :: 0 <= i < j < |top| ==> top[i].1 >= top[j].1)
      && (forall e :: e in v.subjects + v.objects && e !in KeysOf(top) ==>
            forall i :: 0 <= i < |top| ==> Get(v.entityCounter, e) <= top[i].1)
  {
    var top := Summarize(v, topN).topEntities;
    forall i | 0 <= i < |top|
      ensures top[i].1 == Get(v.subjectCounter, top[i].0) + Get(v.objectCounter, top[i].0)
    {
      assert top[i].1 == Get(v.entityCounter, top[i].0);
    }
  }

  /** An ICEWS record lists no markers, no temporal records and no year
      span. */
  lemma SummarizeIcews(v: StatsValue, topN: int)
    requires CountersValid(v) && DatesValid(v) && TypeInv(v, Icews)
    ensures var s := Summarize(v, topN);
      s.temporalMarkers == [] && s.temporalRecords == 0 && s.minYear.None? && s.maxYear.None?
  {
    TopCount(v.markerCounter, topN);
  }

  /** Wikidata and YAGO records have no date range. */
  lemma SummarizeYearConventions(v: StatsValue, t: DatasetType, topN: int)
    requires t == Wikidata || t == Yago
    requires CountersValid(v) && TypeInv(v, t)
    ensures DatesValid(v)
    ensures var s := Summarize(v, topN); s.minDate.None? && s.maxDate.None?
  {
  }

  /** A generic record has no temporal information at all. */
  lemma SummarizeGeneric(v: StatsValue, topN: int)
    requires CountersValid(v) && TypeInv(v, Generic)
    ensures DatesValid(v)
    ensures var s := Summarize(v, topN);
      && s.topYears == [] && s.temporalMarkers == [] && s.temporalRecords == 0
      && s.minDate.None? && s.maxDate.None? && s.minYear.None? && s.maxYear.None?
  {
    TopCount(v.markerCounter, topN);
    TopCount(v.yearCounter, topN);
  }

  // ---------------------------------------------------------------------
  // `humanize`: which lines are printed and what each carries.

  /** One printed line, by kind, with the summary values it shows. */
  datatype ReportLine =
    | Heading(name: string)
    | Totals(triples: nat, subjects: nat, objects: nat, relations: nat)
    | TopEntities(entities: seq<(string, nat)>)
    | TopRelations(ranked: seq<(string, nat)>)
    | ActiveYears(years: seq<(int, nat)>)
    | Markers(markers: seq<(string, nat)>, records: nat)
    | DateRange(from: Option<string>, to: Option<string>)
    | YearSpan(first: Option<int>, last: Option<int>)

  /** The position of each kind in the printed block. */
  function Rank(l: ReportLine): nat
  {
    match l
    case Heading(_) => 0
    case Totals(_, _, _, _) => 1
    case TopEntities(_) => 2
    case TopRelations(_) => 3
    case ActiveYears(_) => 4
    case Markers(_, _) => 5
    case DateRange(_, _) => 6
    case YearSpan(_, _) => 7
  }

  /** A line shows what the summary holds for its kind. */
  predicate Shows(l: ReportLine, name: string, s: Summary)
  {
    match l
    case Heading(n) => n == name
    case Totals(a, b, c, d) => a == s.triples && b == s.uniqueSubjects && c == s.uniqueObjects && d == s.uniqueRelations
    case TopEntities(items) => items == s.topEntities
    case TopRelations(items) => items == s.topRelations
    case ActiveYears(items) => items == s.topYears
    case Markers(items, n) => items == s.temporalMarkers && n == s.temporalRecords
    case DateRange(a, b) => a == s.minDate && b == s.maxDate
    case YearSpan(a, b) => a == s.minYear && b == s.maxYear
  }

  /** The kinds of `lines`, in order. */
  function Kinds(lines: seq<ReportLine>): (ks: seq<nat>)
    ensures |ks| == |lines| && forall i :: 0 <= i < |lines| ==> ks[i] == Rank(lines[i])
  {
    seq(|lines|, i requires 0 <= i < |lines| => Rank(lines[i]))
  }

  lemma KindsAppend(lines: seq<ReportLine>, line: ReportLine)
    ensures Kinds(lines + [line]) == Kinds(lines) + [Rank(line)]
  {
  }

  /** Whether the optional line of kind `k` (2 to 7) is printed for `s`:
      exactly when its part of the summary is non-empty. */
  predicate Present(s: Summary, k: nat)
  {
    if k == 2 then s.topEntities != []
    else if k == 3 then s.topRelations != []
    else if k == 4 then s.topYears != []
    else if k == 5 then s.temporalMarkers != []
    else if k == 6 then s.minDate.Some? || s.maxDate.Some?
    else if k == 7 then s.minYear.Some? || s.maxYear.Some?
    else false
  }

  /** The kinds printed for `s` up to kind `k`: the heading and the totals
      always, then each optional kind that is present. */
  function Printed(s: Summary, k: nat): seq<nat>
  {
    if k <= 1 then [0, 1]
    else Printed(s, k - 1) + (if Present(s, k) then [k] else [])
  }

  /** A kind is printed exactly when it is the heading, the totals or a
      present optional kind. */
  lemma {:induction false} PrintedKinds(s: Summary, k: nat)
    ensures forall r: nat :: r in Printed(s, k) <==> r <= 1 || (2 <= r <= k && Present(s, r))
  {
    if k > 1 {
      PrintedKinds(s, k - 1);
      var p := Printed(s, k - 1);
      var q := if Present(s, k) then [k] else [];
      assert Printed(s, k) == p + q;
      forall r: nat ensures r in p + q <==> r <= 1 || (2 <= r <= k && Present(s, r)) {
        assert r in p + q <==> r in p || r in q;
      }
    }
  }

  /** The kinds are printed in increasing order, so none twice. */
  lemma {:induction false} PrintedInOrder(s: Summary, k: nat)
    ensures forall r :: r in Printed(s, k) ==> r <= k || r <= 1
    ensures forall i, j :: 0 <= i < j < |Printed(s, k)| ==> Printed(s, k)[i] < Printed(s, k)[j]
  {
    if k > 1 {
      PrintedInOrder(s, k - 1);
      var p := Printed(s, k - 1);
      var q := if Present(s, k) then [k] else [];
      assert Printed(s, k) == p + q;
      forall i, j | 0 <= i < j < |p + q| ensures (p + q)[i] < (p + q)[j] {
        if j >= |p| {
          assert p[i] in p;
        }
      }
    }
  }

  /** One optional line of `humanize`: printed after `lines` exactly when
      its part of the summary is present. */
  method PrintIfPresent(lines: seq<ReportLine>, name: string, s: Summary, line: ReportLine, present: bool)
    returns (r: seq<ReportLine>)
    requires 2 <= Rank(line) && present == Present(s, Rank(line)) && Shows(line, name, s)
    requires Kinds(lines) == Printed(s, Rank(line) - 1)
    requires forall i :: 0 <= i < |lines| ==> Shows(lines[i], name, s)
    ensures Kinds(r) == Printed(s, Rank(line))
    ensures forall i :: 0 <= i < |r| ==> Shows(r[i], name, s)
  {
    r := lines;
    if present {
      KindsAppend(lines, line);
      r := lines + [line];
    }
  }

  /** `humanize(dataset_name, summary, top_n)`: the heading and the totals,
      then the entity, relation, year, marker, date and year lines, each
      exactly when its part of the summary is non-empty (`Printed`), every
      line showing its part of the summary. */
  method Humanize(name: string, s: Summary, topN: int) returns (lines: seq<ReportLine>)
    ensures Kinds(lines) == Printed(s, 7)
    ensures forall i :: 0 <= i < |lines| ==> Shows(lines[i], name, s)
  {
    lines := [Heading(name), Totals(s.triples, s.uniqueSubjects, s.uniqueObjects, s.uniqueRelations)];
    assert Kinds(lines) == Printed(s, 1);
    lines := PrintIfPresent(lines, name, s, TopEntities(s.topEntities), s.topEntities != []);
    lines := PrintIfPresent(lines, name, s, TopRelations(s.topRelations), s.topRelations != []);
    lines := PrintIfPresent(lines, name, s, ActiveYears(s.topYears), s.topYears != []);
    lines := PrintIfPresent(lines, name, s, Markers(s.temporalMarkers, s.temporalRecords), s.temporalMarkers != []);
    lines := PrintIfPresent(lines, name, s, DateRange(s.minDate, s.maxDate), s.minDate.Some? || s.maxDate.Some?);
    lines := PrintIfPresent(lines, name, s, YearSpan(s.minYear, s.maxYear), s.minYear.Some? || s.maxYear.Some?);
  }
}
