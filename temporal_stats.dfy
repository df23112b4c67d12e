/** The abstract state of a `Stats` record of the statistics engine and the
    pure functions that say how one triple line, one temporal column set and
    one merge change it. */
module TemporalStats {
  import opened Wrappers
  import opened Text
  import opened Counters
  import opened Dates
  import opened Rows
  import opened Datasets

  /** The fields of `Stats`, as a value. */
  datatype StatsValue = StatsValue(
    triples: nat,
    subjects: set<string>,
    objects: set<string>,
    relations: set<string>,
    subjectCounter: Counter<string>,
    objectCounter: Counter<string>,
    entityCounter: Counter<string>,
    relationCounter: Counter<string>,
    yearCounter: Counter<int>,
    markerCounter: Counter<string>,
    temporalRecords: nat,
    minDate: Option<Date>,
    maxDate: Option<Date>,
    minYear: Option<int>,
    maxYear: Option<int>)

  /** `init_stats()`: no triples, empty sets and counters, no ranges. */
  function Init(): StatsValue
  {
    StatsValue(0, {}, {}, {}, Empty(), Empty(), Empty(), Empty(), Empty(), Empty(), 0, None, None, None, None)
  }

  // ---------------------------------------------------------------------
  // Lower and upper bounds of optional values.

  /** The earlier of two optional dates, `None` counting as absent. */
  function OptMinDate(a: Option<Date>, b: Option<Date>): (r: Option<Date>)
    ensures r.Some? <==> a.Some? || b.Some?
    ensures r.Some? ==> (r == a || r == b)
    ensures r.Some? && a.Some? ==> !Before(a.value, r.value)
    ensures r.Some? && b.Some? ==> !Before(b.value, r.value)
  {
    if a.None? then b
    else if b.None? then a
    else
      BeforeOrder(a.value, b.value, a.value);
      if Before(b.value, a.value) then b else a
  }

  /** The later of two optional dates. */
  function OptMaxDate(a: Option<Date>, b: Option<Date>): (r: Option<Date>)
    ensures r.Some? <==> a.Some? || b.Some?
    ensures r.Some? ==> (r == a || r == b)
    ensures r.Some? && a.Some? ==> !Before(r.value, a.value)
    ensures r.Some? && b.Some? ==> !Before(r.value, b.value)
  {
    if a.None? then b
    else if b.None? then a
    else
      BeforeOrder(a.value, b.value, a.value);
      if Before(a.value, b.value) then b else a
  }

  /** The smaller of two optional years. */
  function OptMinYear(a: Option<int>, b: Option<int>): (r: Option<int>)
    ensures r.Some? <==> a.Some? || b.Some?
    ensures r.Some? ==> (r == a || r == b)
    ensures r.Some? && a.Some? ==> r.value <= a.value
    ensures r.Some? && b.Some? ==> r.value <= b.value
  {
    if a.None? then b
    else if b.None? then a
    else if b.value < a.value then b else a
  }

  /** The larger of two optional years. */
  function OptMaxYear(a: Option<int>, b: Option<int>): (r: Option<int>)
    ensures r.Some? <==> a.Some? || b.Some?
    ensures r.Some? ==> (r == a || r == b)
    ensures r.Some? && a.Some? ==> a.value <= r.value
    ensures r.Some? && b.Some? ==> b.value <= r.value
  {
    if a.None? then b
    else if b.None? then a
    else if a.value < b.value then b else a
  }

  /** The four bounds are commutative and associative. */
  lemma OptBoundsAlgebra(a: Option<Date>, b: Option<Date>, c: Option<Date>,
                         x: Option<int>, y: Option<int>, z: Option<int>)
    ensures OptMinDate(a, b) == OptMinDate(b, a) && OptMaxDate(a, b) == OptMaxDate(b, a)
    ensures OptMinDate(OptMinDate(a, b), c) == OptMinDate(a, OptMinDate(b, c))
    ensures OptMaxDate(OptMaxDate(a, b), c) == OptMaxDate(a, OptMaxDate(b, c))
    ensures OptMinYear(x, y) == OptMinYear(y, x) && OptMaxYear(x, y) == OptMaxYear(y, x)
    ensures OptMinYear(OptMinYear(x, y), z) == OptMinYear(x, OptMinYear(y, z))
    ensures OptMaxYear(OptMaxYear(x, y), z) == OptMaxYear(x, OptMaxYear(y, z))
  {
    if a.Some? && b.Some? { BeforeOrder(a.value, b.value, a.value); }
    if a.Some? && b.Some? && c.Some? {
      BeforeOrder(a.value, b.value, c.value);
      BeforeOrder(b.value, c.value, a.value);
      BeforeOrder(c.value, a.value, b.value);
      BeforeOrder(a.value, c.value, b.value);
      BeforeOrder(b.value, a.value, c.value);
      BeforeOrder(c.value, b.value, a.value);
    }
    if b.Some? && c.Some? { BeforeOrder(b.value, c.value, b.value); }
    if a.Some? && c.Some? { BeforeOrder(a.value, c.value, a.value); }
  }

  // ---------------------------------------------------------------------
  // One triple line.

  /** Lines 141-149: count the triple `(s, r, o)`. */
  function AddTriple(v: StatsValue, s: string, r: string, o: string): StatsValue
  {
    v.(triples := v.triples + 1,
       subjects := v.subjects + {s},
       objects := v.objects + {o},
       relations := v.relations + {r},
       subjectCounter := Inc(v.subjectCounter, s),
       objectCounter := Inc(v.objectCounter, o),
       entityCounter := Inc(Inc(v.entityCounter, s), o),
       relationCounter := Inc(v.relationCounter, r))
  }

  /** What the temporal columns of one line contribute: nothing, an ICEWS
      date, or a Wikidata/YAGO marker with the year it gives, if any. */
  datatype Temporal = NoTemporal | Dated(date: Date) | Marked(marker: string, year: Option<int>)

  /** The characters `tokens[3].strip("<>\"")` removes from a YAGO marker. */
  const MarkerTrim: set<char> := {'<', '>', '"'}

  /** The character `tokens[4].strip("\"")` removes from a YAGO date. */
  const QuoteTrim: set<char> := {'"'}

  /** Lines 101 and 104-108: the year of a Wikidata line, when the stripped
      fifth column is not empty and reads as an integer. */
  function WikidataYear(token: string): Option<int>
  {
    var y := Strip(token);
    if y == "" then None else ParseInt(y)
  }

  /** Lines 117 and 120-122: the first four of all the digits of the
      quote-stripped fifth column, when there are at least four. */
  function YagoYear(token: string): (y: Option<int>)
    ensures y.Some? <==> |DigitsOf(token)| >= 4
    ensures y.Some? ==> 0 <= y.value < 10000
  {
    var digits := DigitsOf(StripChars(token, QuoteTrim));
    DigitsOfStripChars(token, QuoteTrim);
    if |digits| >= 4 then
      DecimalValueBound(digits[..4]);
      assert Pow10(4) == 10000 by {
        assert Pow10(0) == 1;
      }
      Some(DecimalValue(digits[..4]))
    else None
  }

  /** A contribution the line parser of convention `t` can produce. */
  ghost predicate Fits(c: Temporal, t: DatasetType)
  {
    match c
    case NoTemporal => true
    case Dated(d) => t == Icews && ValidDate(d)
    case Marked(_, y) => (t == Wikidata || t == Yago) && (t == Yago && y.Some? ==> 0 <= y.value < 10000)
  }

  /** The temporal columns of a line under convention `t`: only ICEWS lines
      with four columns and a valid date are dated, they carry that date,
      and exactly the Wikidata and YAGO lines with five columns are marked. */
  function Extract(tokens: seq<string>, t: DatasetType): (c: Temporal)
    ensures Fits(c, t)
    ensures c.Dated? <==> t == Icews && |tokens| >= 4 && ParseDate(tokens[3]).Some?
    ensures c.Dated? && |tokens[3]| == 10 && ' ' !in tokens[3] ==> IsoFormat(c.date) == tokens[3]
    ensures c.Marked? <==> (t == Wikidata || t == Yago) && |tokens| >= 5
  {
    match t
    case Icews =>
      if |tokens| >= 4 then
        match ParseDate(tokens[3])
        case Some(d) => Dated(d)
        case None => NoTemporal
      else NoTemporal
    case Wikidata =>
      if |tokens| >= 5 then Marked(tokens[3], WikidataYear(tokens[4])) else NoTemporal
    case Yago =>
      if |tokens| >= 5 then Marked(StripChars(tokens[3], MarkerTrim), YagoYear(tokens[4])) else NoTemporal
    case Generic => NoTemporal
  }

  /** Lines 92-97: an ICEWS date is counted under its year and widens the
      date range. */
  function WithDate(v: StatsValue, d: Date): StatsValue
  {
    v.(yearCounter := Inc(v.yearCounter, d.year),
       minDate := if v.minDate.None? || Before(d, v.minDate.value) then Some(d) else v.minDate,
       maxDate := if v.maxDate.None? || Before(v.maxDate.value, d) then Some(d) else v.maxDate)
  }

  /** Lines 109-113 and 123-127: a year is counted and widens the year
      range. */
  function WithYear(v: StatsValue, y: int): StatsValue
  {
    v.(yearCounter := Inc(v.yearCounter, y),
       minYear := if v.minYear.None? || y < v.minYear.value then Some(y) else v.minYear,
       maxYear := if v.maxYear.None? || y > v.maxYear.value then Some(y) else v.maxYear)
  }

  /** `parse_temporal_tokens` on the abstract state. */
  function Apply(v: StatsValue, c: Temporal): StatsValue
  {
    match c
    case NoTemporal => v
    case Dated(d) => WithDate(v, d)
    case Marked(m, y) =>
      var u := Mark(v, m);
      if y.Some? then WithYear(u, y.value) else u
  }

  /** One iteration of the loop of `process_file`. */
  function ProcessLine(v: StatsValue, raw: string, t: DatasetType): StatsValue
  {
    match TripleColumns(raw)
    case None => v
    case Some(cols) => Apply(AddTriple(v, cols[0], cols[1], cols[2]), Extract(cols, t))
  }

  /** `process_file` on a file's lines: every line folded, in order, into
      an empty record. */
  function ProcessLines(lines: seq<string>, t: DatasetType): StatsValue
    decreases |lines|
  {
    if lines == [] then Init()
    else ProcessLine(ProcessLines(lines[..|lines| - 1], t), lines[|lines| - 1], t)
  }

  // ---------------------------------------------------------------------
  // The invariant of a record built from lines of one convention.

  ghost predicate CountersValid(v: StatsValue)
  {
    && Valid(v.subjectCounter) && Valid(v.objectCounter) && Valid(v.entityCounter)
    && Valid(v.relationCounter) && Valid(v.yearCounter) && Valid(v.markerCounter)
  }

  /** The counters agree with the sets and with each other. */
  ghost predicate CountsInv(v: StatsValue)
  {
    CountersValid(v) && KeysMatch(v) && EntitySplit(v) && TotalsMatch(v)
  }

  /** The keys of each counter are the members of its set. */
  ghost predicate KeysMatch(v: StatsValue)
  {
    && v.subjectCounter.counts.Keys == v.subjects
    && v.objectCounter.counts.Keys == v.objects
    && v.relationCounter.counts.Keys == v.relations
    && v.entityCounter.counts.Keys == v.subjects + v.objects
  }

  /** An entity is counted once per subject and once per object occurrence. */
  ghost predicate EntitySplit(v: StatsValue)
  {
    forall e :: Get(v.entityCounter, e) == Get(v.subjectCounter, e) + Get(v.objectCounter, e)
  }

  /** Every triple has one subject, one object and one relation. */
  ghost predicate TotalsMatch(v: StatsValue)
  {
    && Total(v.subjectCounter) == v.triples
    && Total(v.objectCounter) == v.triples
    && Total(v.relationCounter) == v.triples
    && Total(v.entityCounter) == 2 * v.triples
    && Total(v.markerCounter) == v.temporalRecords
  }

  /** Each triple adds at most one year and one temporal record; `slack`
      leaves room for a triple already counted whose temporal columns are
      still to come. */
  ghost predicate Bounds(v: StatsValue, slack: nat)
  {
    Total(v.yearCounter) + slack <= v.triples && v.temporalRecords + slack <= v.triples
  }

  /** Each range is set on both ends or on neither, and in order. */
  ghost predicate RangeInv(v: StatsValue)
  {
    && (v.minDate.Some? <==> v.maxDate.Some?)
    && (v.minDate.Some? ==> ValidDate(v.minDate.value) && ValidDate(v.maxDate.value)
                            && !Before(v.maxDate.value, v.minDate.value))
    && (v.minYear.Some? <==> v.maxYear.Some?)
    && (v.minYear.Some? ==> v.minYear.value <= v.maxYear.value)
  }

  /** ICEWS: the year counter holds the years of the dates seen, the date
      range is set exactly when it has a year, and spans the first and the
      last; there are no markers and no year range. */
  ghost predicate DatesTracked(v: StatsValue)
  {
    && v.temporalRecords == 0 && v.markerCounter.counts.Keys == {}
    && v.minYear.None? && v.maxYear.None?
    && (v.minDate.Some? <==> v.yearCounter.counts.Keys != {})
    && (v.minDate.Some? && v.maxDate.Some? ==>
          v.minDate.value.year in v.yearCounter.counts && v.maxDate.value.year in v.yearCounter.counts)
    && (forall y :: y in v.yearCounter.counts ==>
          v.minDate.Some? && v.maxDate.Some? && v.minDate.value.year <= y && y <= v.maxDate.value.year)
  }

  /** Wikidata and YAGO: every counted year has a temporal record, the
      year range is set exactly when a year was counted, its ends are the
      least and the greatest counted year; there is no date range. */
  ghost predicate YearsTracked(v: StatsValue)
  {
    && v.minDate.None? && v.maxDate.None?
    && Total(v.yearCounter) <= v.temporalRecords
    && YearRangeTracked(v)
  }

  /** The year range is set exactly when a year was counted, and its ends
      are the least and the greatest counted year. */
  ghost predicate YearRangeTracked(v: StatsValue)
  {
    && (v.minYear.Some? <==> v.yearCounter.counts.Keys != {})
    && (v.minYear.Some? && v.maxYear.Some? ==>
          v.minYear.value in v.yearCounter.counts && v.maxYear.value in v.yearCounter.counts)
    && (forall y :: y in v.yearCounter.counts ==>
          v.minYear.Some? && v.maxYear.Some? && v.minYear.value <= y && y <= v.maxYear.value)
  }

  /** The temporal fields a convention can fill. */
  ghost predicate TypeInv(v: StatsValue, t: DatasetType)
  {
    match t
    case Icews => DatesTracked(v)
    case Wikidata => YearsTracked(v)
    case Yago => YearsTracked(v) && forall y :: y in v.yearCounter.counts ==> 0 <= y < 10000
    case Generic =>
      && v.temporalRecords == 0 && v.markerCounter.counts.Keys == {} && v.yearCounter.counts.Keys == {}
      && v.minDate.None? && v.maxDate.None? && v.minYear.None? && v.maxYear.None?
  }

  ghost predicate Inv(v: StatsValue, t: DatasetType)
  {
    CountsInv(v) && Bounds(v, 0) && RangeInv(v) && TypeInv(v, t)
  }

  lemma InitInv(t: DatasetType)
    ensures Inv(Init(), t)
  {
  }

  /** Counting a triple keeps the counters consistent. */
  lemma AddTripleInv(v: StatsValue, s: string, r: string, o: string)
    requires CountsInv(v) && Bounds(v, 0)
    ensures CountsInv(AddTriple(v, s, r, o)) && Bounds(AddTriple(v, s, r, o), 1)
  {
    AddTripleValid(v, s, r, o);
    AddTripleKeys(v, s, r, o);
    AddTripleEntities(v, s, r, o);
    AddTripleTotals(v, s, r, o);
  }

  lemma AddTripleValid(v: StatsValue, s: string, r: string, o: string)
    requires CountersValid(v)
    ensures CountersValid(AddTriple(v, s, r, o))
  {
  }

  lemma AddTripleKeys(v: StatsValue, s: string, r: string, o: string)
    requires KeysMatch(v)
    ensures KeysMatch(AddTriple(v, s, r, o))
  {
    var u := AddTriple(v, s, r, o);
    var e1 := Inc(v.entityCounter, s);
    assert e1.counts.Keys == v.entityCounter.counts.Keys + {s};
    assert u.entityCounter.counts.Keys == e1.counts.Keys + {o};
    assert u.subjectCounter.counts.Keys == v.subjects + {s};
    assert u.objectCounter.counts.Keys == v.objects + {o};
    assert u.relationCounter.counts.Keys == v.relations + {r};
  }

  lemma AddTripleEntities(v: StatsValue, s: string, r: string, o: string)
    requires EntitySplit(v)
    ensures EntitySplit(AddTriple(v, s, r, o))
  {
  }

  lemma AddTripleTotals(v: StatsValue, s: string, r: string, o: string)
    requires CountersValid(v) && TotalsMatch(v)
    ensures TotalsMatch(AddTriple(v, s, r, o))
  {
    var u := AddTriple(v, s, r, o);
    assert Total(u.subjectCounter) == u.triples by {
      TotalAdd(v.subjectCounter, s, 1);
    }
    assert Total(u.objectCounter) == u.triples by {
      TotalAdd(v.objectCounter, o, 1);
    }
    assert Total(u.relationCounter) == u.triples by {
      TotalAdd(v.relationCounter, r, 1);
    }
    assert Total(u.entityCounter) == 2 * u.triples by {
      TotalAdd(v.entityCounter, s, 1);
      TotalAdd(Inc(v.entityCounter, s), o, 1);
    }
  }

  lemma WithDateInv(v: StatsValue, d: Date)
    requires Valid(v.yearCounter) && RangeInv(v) && DatesTracked(v) && ValidDate(d)
    ensures var u := WithDate(v, d);
      Valid(u.yearCounter) && RangeInv(u) && DatesTracked(u) && Total(u.yearCounter) == Total(v.yearCounter) + 1
  {
    TotalAdd(v.yearCounter, d.year, 1);
    if v.minDate.Some? {
      BeforeOrder(d, v.minDate.value, v.maxDate.value);
      BeforeOrder(v.minDate.value, d, v.maxDate.value);
      BeforeOrder(v.minDate.value, v.maxDate.value, d);
    }
  }

  lemma WithYearInv(v: StatsValue, y: int)
    requires Valid(v.yearCounter) && RangeInv(v) && v.minDate.None? && v.maxDate.None?
    requires YearRangeTracked(v)
    ensures var u := WithYear(v, y);
      && Valid(u.yearCounter) && RangeInv(u) && u.minDate.None? && u.maxDate.None?
      && YearRangeTracked(u)
      && Total(u.yearCounter) == Total(v.yearCounter) + 1
  {
    TotalAdd(v.yearCounter, y, 1);
  }

  /** The temporal columns of a line keep the invariant of its convention. */
  lemma ApplyInv(u: StatsValue, c: Temporal, t: DatasetType)
    requires CountsInv(u) && Bounds(u, 1) && RangeInv(u) && TypeInv(u, t) && Fits(c, t)
    ensures Inv(Apply(u, c), t)
  {
    match c
    case NoTemporal =>
    case Dated(d) => ApplyDatedInv(u, d);
    case Marked(m, y) => ApplyMarkedInv(u, m, y, t);
  }

  lemma ApplyDatedInv(u: StatsValue, d: Date)
    requires CountsInv(u) && Bounds(u, 1) && RangeInv(u) && DatesTracked(u) && ValidDate(d)
    ensures Inv(WithDate(u, d), Icews)
  {
    var w := WithDate(u, d);
    WithDateInv(u, d);
    assert CountsInv(w) by {
      assert KeysMatch(w) && EntitySplit(w) && TotalsMatch(w);
    }
  }

  lemma ApplyMarkedInv(u: StatsValue, m: string, y: Option<int>, t: DatasetType)
    requires CountsInv(u) && Bounds(u, 1) && RangeInv(u) && TypeInv(u, t)
    requires (t == Wikidata || t == Yago) && (t == Yago && y.Some? ==> 0 <= y.value < 10000)
    ensures Inv(Apply(u, Marked(m, y)), t)
  {
    var w := Mark(u, m);
    MarkInv(u, m, t);
    if y.Some? {
      YearInv(w, y.value, t);
    }
  }

  /** Lines 102-103 and 118-119: the marker and the record count. */
  function Mark(v: StatsValue, m: string): StatsValue
  {
    v.(markerCounter := Inc(v.markerCounter, m), temporalRecords := v.temporalRecords + 1)
  }

  lemma MarkInv(u: StatsValue, m: string, t: DatasetType)
    requires CountsInv(u) && Bounds(u, 1) && RangeInv(u) && TypeInv(u, t) && (t == Wikidata || t == Yago)
    ensures var w := Mark(u, m); CountsInv(w) && Bounds(w, 0) && RangeInv(w) && TypeInv(w, t)
    ensures Total(Mark(u, m).yearCounter) < Mark(u, m).temporalRecords
  {
    var w := Mark(u, m);
    assert CountersValid(w) && KeysMatch(w) && EntitySplit(w);
    assert TotalsMatch(w) by {
      TotalAdd(u.markerCounter, m, 1);
    }
  }

  lemma YearInv(w: StatsValue, y: int, t: DatasetType)
    requires CountsInv(w) && Bounds(w, 0) && RangeInv(w) && TypeInv(w, t) && (t == Wikidata || t == Yago)
    requires Total(w.yearCounter) < w.temporalRecords
    requires t == Yago ==> 0 <= y < 10000
    ensures Inv(WithYear(w, y), t)
  {
    var x := WithYear(w, y);
    WithYearInv(w, y);
    assert CountsInv(x) by {
      assert CountersValid(x) && KeysMatch(x) && EntitySplit(x) && TotalsMatch(x);
    }
  }

  /** Every line keeps the invariant. */
  lemma ProcessLineInv(v: StatsValue, raw: string, t: DatasetType)
    requires Inv(v, t)
    ensures Inv(ProcessLine(v, raw, t), t)
    ensures ProcessLine(v, raw, t).triples == v.triples + (if TripleColumns(raw).Some? then 1 else 0)
  {
    match TripleColumns(raw)
    case None =>
    case Some(cols) =>
      var u := AddTriple(v, cols[0], cols[1], cols[2]);
      AddTripleInv(v, cols[0], cols[1], cols[2]);
      ApplyInv(u, Extract(cols, t), t);
  }

  /** The record of a file keeps the invariant of its convention and
      counts one triple per kept line. */
  lemma {:induction false} ProcessLinesInv(lines: seq<string>, t: DatasetType)
    ensures Inv(ProcessLines(lines, t), t)
    ensures ProcessLines(lines, t).triples == |KeptRows(lines)|
    decreases |lines|
  {
    if lines == [] {
      InitInv(t);
    } else {
      var init := lines[..|lines| - 1];
      ProcessLinesInv(init, t);
      ProcessLineInv(ProcessLines(init, t), lines[|lines| - 1], t);
    }
  }
}
