/** `merge_stats` on the abstract state, with the invariant it keeps and
    its algebra: commutative and associative up to the order of counter
    keys, with the empty record as identity. */
module StatsMerge {
  import opened Wrappers
  import opened Counters
  import opened CounterLaws
  import opened Dates
  import opened Datasets
  import opened TemporalStats

  /** `merge_stats(acc, other)`: sums, unions and counter updates, then
      lines 69-81, which look at `other`'s lower bounds only. */
  function Merge(a: StatsValue, o: StatsValue): StatsValue
  {
    StatsValue(
      a.triples + o.triples,
      a.subjects + o.subjects,
      a.objects + o.objects,
      a.relations + o.relations,
      Update(a.subjectCounter, o.subjectCounter),
      Update(a.objectCounter, o.objectCounter),
      Update(a.entityCounter, o.entityCounter),
      Update(a.relationCounter, o.relationCounter),
      Update(a.yearCounter, o.yearCounter),
      Update(a.markerCounter, o.markerCounter),
      a.temporalRecords + o.temporalRecords,
      if o.minDate.Some? && (a.minDate.None? || Before(o.minDate.value, a.minDate.value))
      then o.minDate else a.minDate,
      if o.minDate.Some? && (a.maxDate.None? || (o.maxDate.Some? && Before(a.maxDate.value, o.maxDate.value)))
      then o.maxDate else a.maxDate,
      if o.minYear.Some? && (a.minYear.None? || o.minYear.value < a.minYear.value)
      then o.minYear else a.minYear,
      if o.minYear.Some? && (a.maxYear.None? || (o.maxYear.Some? && o.maxYear.value > a.maxYear.value))
      then o.maxYear else a.maxYear)
  }

  /** Each range is set on both ends or on neither. */
  ghost predicate SetTogether(v: StatsValue)
  {
    (v.minDate.Some? <==> v.maxDate.Some?) && (v.minYear.Some? <==> v.maxYear.Some?)
  }

  /** When `other` has both ends of its ranges or neither, the merged ranges
      are the smaller lower bound and the larger upper bound, `None`
      standing for an empty range. */
  lemma MergeRanges(a: StatsValue, o: StatsValue)
    requires SetTogether(o)
    ensures Merge(a, o).minDate == OptMinDate(a.minDate, o.minDate)
    ensures Merge(a, o).maxDate == OptMaxDate(a.maxDate, o.maxDate)
    ensures Merge(a, o).minYear == OptMinYear(a.minYear, o.minYear)
    ensures Merge(a, o).maxYear == OptMaxYear(a.maxYear, o.maxYear)
  {
    if a.minDate.Some? && o.minDate.Some? { BeforeOrder(a.minDate.value, o.minDate.value, a.minDate.value); }
    if a.maxDate.Some? && o.maxDate.Some? { BeforeOrder(a.maxDate.value, o.maxDate.value, a.maxDate.value); }
  }

  /** Without that, the merge is lopsided: a lower bound without an upper
      bound leaves the merged upper bound unset, and an upper bound without
      a lower bound is ignored. */
  lemma MergeUnpairedBounds()
    ensures var d := Date(2000, 1, 1);
      var r := Merge(Init(), Init().(minDate := Some(d)));
      r.minDate == Some(d) && r.maxDate.None?
    ensures var r := Merge(Init(), Init().(maxYear := Some(2000)));
      r.minYear.None? && r.maxYear.None?
  {
  }

  lemma MergeSetTogether(a: StatsValue, o: StatsValue)
    requires SetTogether(a) && SetTogether(o)
    ensures SetTogether(Merge(a, o))
  {
    MergeRanges(a, o);
  }

  /** Counts add up key by key; sets are united. */
  lemma MergeCounts(a: StatsValue, o: StatsValue)
    requires CountersValid(o)
    ensures var r := Merge(a, o);
      && (forall k :: Get(r.subjectCounter, k) == Get(a.subjectCounter, k) + Get(o.subjectCounter, k))
      && (forall k :: Get(r.objectCounter, k) == Get(a.objectCounter, k) + Get(o.objectCounter, k))
      && (forall k :: Get(r.entityCounter, k) == Get(a.entityCounter, k) + Get(o.entityCounter, k))
      && (forall k :: Get(r.relationCounter, k) == Get(a.relationCounter, k) + Get(o.relationCounter, k))
      && (forall y :: Get(r.yearCounter, y) == Get(a.yearCounter, y) + Get(o.yearCounter, y))
      && (forall k :: Get(r.markerCounter, k) == Get(a.markerCounter, k) + Get(o.markerCounter, k))
  {
  }

  /** Two records that differ at most in the order of their counters' keys. */
  predicate Equiv(a: StatsValue, b: StatsValue)
  {
    && a.triples == b.triples
    && a.subjects == b.subjects && a.objects == b.objects && a.relations == b.relations
    && a.subjectCounter.counts == b.subjectCounter.counts
    && a.objectCounter.counts == b.objectCounter.counts
    && a.entityCounter.counts == b.entityCounter.counts
    && a.relationCounter.counts == b.relationCounter.counts
    && a.yearCounter.counts == b.yearCounter.counts
    && a.markerCounter.counts == b.markerCounter.counts
    && a.temporalRecords == b.temporalRecords
    && a.minDate == b.minDate && a.maxDate == b.maxDate
    && a.minYear == b.minYear && a.maxYear == b.maxYear
  }

  /** The order of the two arguments matters only for key order. */
  lemma MergeCommutes(a: StatsValue, b: StatsValue)
    requires CountersValid(a) && CountersValid(b) && SetTogether(a) && SetTogether(b)
    ensures Equiv(Merge(a, b), Merge(b, a))
  {
    MergeRanges(a, b);
    MergeRanges(b, a);
    OptBoundsAlgebra(a.minDate, b.minDate, None, a.minYear, b.minYear, None);
    OptBoundsAlgebra(a.maxDate, b.maxDate, None, a.maxYear, b.maxYear, None);
    UpdateCommutes(a.subjectCounter, b.subjectCounter);
    UpdateCommutes(a.objectCounter, b.objectCounter);
    UpdateCommutes(a.entityCounter, b.entityCounter);
    UpdateCommutes(a.relationCounter, b.relationCounter);
    UpdateCommutes(a.yearCounter, b.yearCounter);
    UpdateCommutes(a.markerCounter, b.markerCounter);
  }

  /** Grouping does not matter either. */
  lemma MergeAssociates(a: StatsValue, b: StatsValue, c: StatsValue)
    requires CountersValid(b) && CountersValid(c) && SetTogether(b) && SetTogether(c)
    ensures Equiv(Merge(Merge(a, b), c), Merge(a, Merge(b, c)))
  {
    MergeRangesAssociate(a, b, c);
    UpdateAssociates(a.subjectCounter, b.subjectCounter, c.subjectCounter);
    UpdateAssociates(a.objectCounter, b.objectCounter, c.objectCounter);
    UpdateAssociates(a.entityCounter, b.entityCounter, c.entityCounter);
    UpdateAssociates(a.relationCounter, b.relationCounter, c.relationCounter);
    UpdateAssociates(a.yearCounter, b.yearCounter, c.yearCounter);
    UpdateAssociates(a.markerCounter, b.markerCounter, c.markerCounter);
  }

  lemma MergeRangesAssociate(a: StatsValue, b: StatsValue, c: StatsValue)
    requires SetTogether(b) && SetTogether(c)
    ensures var l, r := Merge(Merge(a, b), c), Merge(a, Merge(b, c));
      l.minDate == r.minDate && l.maxDate == r.maxDate && l.minYear == r.minYear && l.maxYear == r.maxYear
  {
    MergeRanges(a, b);
    MergeRanges(b, c);
    MergeRanges(Merge(a, b), c);
    MergeSetTogether(b, c);
    MergeRanges(a, Merge(b, c));
    OptBoundsAlgebra(a.minDate, b.minDate, c.minDate, a.minYear, b.minYear, c.minYear);
    OptBoundsAlgebra(a.maxDate, b.maxDate, c.maxDate, a.maxYear, b.maxYear, c.maxYear);
  }

  /** Merging an empty record changes nothing. */
  lemma MergeIdentityRight(a: StatsValue)
    ensures Merge(a, Init()) == a
  {
    UpdateWithEmpty(a.subjectCounter);
    UpdateWithEmpty(a.objectCounter);
    UpdateWithEmpty(a.entityCounter);
    UpdateWithEmpty(a.relationCounter);
    UpdateWithEmpty(a.yearCounter);
    UpdateWithEmpty(a.markerCounter);
  }

  /** Merging into an empty record copies the other one, key order
      included. */
  lemma MergeIdentityLeft(a: StatsValue)
    requires CountersValid(a) && SetTogether(a)
    ensures Merge(Init(), a) == a
  {
    var e := Init();
    assert Update(e.subjectCounter, a.subjectCounter) == a.subjectCounter by { UpdateEmpty(a.subjectCounter); }
    assert Update(e.objectCounter, a.objectCounter) == a.objectCounter by { UpdateEmpty(a.objectCounter); }
    assert Update(e.entityCounter, a.entityCounter) == a.entityCounter by { UpdateEmpty(a.entityCounter); }
    assert Update(e.relationCounter, a.relationCounter) == a.relationCounter by { UpdateEmpty(a.relationCounter); }
    assert Update(e.yearCounter, a.yearCounter) == a.yearCounter by { UpdateEmpty(a.yearCounter); }
    assert Update(e.markerCounter, a.markerCounter) == a.markerCounter by { UpdateEmpty(a.markerCounter); }
  }

  // ---------------------------------------------------------------------
  // The invariant survives merging two records of the same convention.

  lemma MergeInv(a: StatsValue, o: StatsValue, t: DatasetType)
    requires Inv(a, t) && Inv(o, t)
    ensures Inv(Merge(a, o), t)
  {
    MergeCountsInv(a, o);
    MergeBounds(a, o);
    MergeRangeInv(a, o);
    MergeTypeInv(a, o, t);
  }

  lemma MergeValid(a: StatsValue, o: StatsValue)
    requires CountersValid(a)
    ensures CountersValid(Merge(a, o))
  {
  }

  lemma MergeCountsInv(a: StatsValue, o: StatsValue)
    requires CountsInv(a) && CountsInv(o)
    ensures CountsInv(Merge(a, o))
  {
    MergeValid(a, o);
    MergeKeysMatch(a, o);
    MergeEntitySplit(a, o);
    MergeTotalsMatch(a, o);
  }

  lemma MergeKeysMatch(a: StatsValue, o: StatsValue)
    requires CountersValid(o) && KeysMatch(a) && KeysMatch(o)
    ensures KeysMatch(Merge(a, o))
  {
    MergeKeys(a, o);
  }

  /** The keys of each merged counter are those of either side. */
  lemma MergeKeys(a: StatsValue, o: StatsValue)
    requires CountersValid(o)
    ensures var r := Merge(a, o);
      && r.subjectCounter.counts.Keys == a.subjectCounter.counts.Keys + o.subjectCounter.counts.Keys
      && r.objectCounter.counts.Keys == a.objectCounter.counts.Keys + o.objectCounter.counts.Keys
      && r.entityCounter.counts.Keys == a.entityCounter.counts.Keys + o.entityCounter.counts.Keys
      && r.relationCounter.counts.Keys == a.relationCounter.counts.Keys + o.relationCounter.counts.Keys
      && r.yearCounter.counts.Keys == a.yearCounter.counts.Keys + o.yearCounter.counts.Keys
      && r.markerCounter.counts.Keys == a.markerCounter.counts.Keys + o.markerCounter.counts.Keys
  {
  }

  lemma MergeEntitySplit(a: StatsValue, o: StatsValue)
    requires CountersValid(o) && EntitySplit(a) && EntitySplit(o)
    ensures EntitySplit(Merge(a, o))
  {
    MergeCounts(a, o);
  }

  lemma MergeTotalsMatch(a: StatsValue, o: StatsValue)
    requires CountersValid(a) && TotalsMatch(a) && TotalsMatch(o)
    ensures TotalsMatch(Merge(a, o))
  {
    MergeTotals(a, o);
  }

  lemma MergeTotals(a: StatsValue, o: StatsValue)
    requires CountersValid(a)
    ensures var r := Merge(a, o);
      && Total(r.subjectCounter) == Total(a.subjectCounter) + Total(o.subjectCounter)
      && Total(r.objectCounter) == Total(a.objectCounter) + Total(o.objectCounter)
      && Total(r.entityCounter) == Total(a.entityCounter) + Total(o.entityCounter)
      && Total(r.relationCounter) == Total(a.relationCounter) + Total(o.relationCounter)
      && Total(r.yearCounter) == Total(a.yearCounter) + Total(o.yearCounter)
      && Total(r.markerCounter) == Total(a.markerCounter) + Total(o.markerCounter)
  {
    TotalUpdate(a.subjectCounter, o.subjectCounter);
    TotalUpdate(a.objectCounter, o.objectCounter);
    TotalUpdate(a.entityCounter, o.entityCounter);
    TotalUpdate(a.relationCounter, o.relationCounter);
    TotalUpdate(a.yearCounter, o.yearCounter);
    TotalUpdate(a.markerCounter, o.markerCounter);
  }

  lemma MergeBounds(a: StatsValue, o: StatsValue)
    requires CountersValid(a) && Bounds(a, 0) && Bounds(o, 0)
    ensures Bounds(Merge(a, o), 0)
  {
    MergeTotals(a, o);
  }

  lemma MergeRangeInv(a: StatsValue, o: StatsValue)
    requires RangeInv(a) && RangeInv(o)
    ensures RangeInv(Merge(a, o))
  {
    MergeRanges(a, o);
    if a.minDate.Some? && o.minDate.Some? {
      BeforeOrder(a.minDate.value, a.maxDate.value, o.maxDate.value);
      BeforeOrder(o.minDate.value, o.maxDate.value, a.maxDate.value);
      BeforeOrder(a.minDate.value, o.minDate.value, o.maxDate.value);
      BeforeOrder(o.minDate.value, a.minDate.value, a.maxDate.value);
    }
  }

  lemma MergeTypeInv(a: StatsValue, o: StatsValue, t: DatasetType)
    requires Inv(a, t) && Inv(o, t)
    ensures TypeInv(Merge(a, o), t)
  {
    match t
    case Icews => MergeDatesTracked(a, o);
    case Wikidata => MergeYearsTracked(a, o);
    case Yago => MergeYago(a, o);
    case Generic => MergeGeneric(a, o);
  }

  lemma MergeYago(a: StatsValue, o: StatsValue)
    requires CountersValid(a) && CountersValid(o) && RangeInv(a) && RangeInv(o)
    requires TypeInv(a, Yago) && TypeInv(o, Yago)
    ensures TypeInv(Merge(a, o), Yago)
  {
    MergeYearsTracked(a, o);
    MergeKeys(a, o);
  }

  lemma MergeGeneric(a: StatsValue, o: StatsValue)
    requires CountersValid(o) && TypeInv(a, Generic) && TypeInv(o, Generic)
    ensures TypeInv(Merge(a, o), Generic)
  {
    MergeKeys(a, o);
  }

  lemma MergeDatesTracked(a: StatsValue, o: StatsValue)
    requires CountersValid(o) && RangeInv(a) && RangeInv(o) && DatesTracked(a) && DatesTracked(o)
    ensures DatesTracked(Merge(a, o))
  {
    var r := Merge(a, o);
    MergeRanges(a, o);
    MergeKeys(a, o);
    if r.minDate.Some? {
      var lo, hi := r.minDate.value, r.maxDate.value;
      forall y | y in r.yearCounter.counts ensures lo.year <= y <= hi.year {
        if y in a.yearCounter.counts {
          assert !Before(a.minDate.value, lo) && !Before(hi, a.maxDate.value);
        } else {
          assert !Before(o.minDate.value, lo) && !Before(hi, o.maxDate.value);
        }
      }
    }
  }

  lemma MergeYearsTracked(a: StatsValue, o: StatsValue)
    requires CountersValid(a) && CountersValid(o) && RangeInv(a) && RangeInv(o) && YearsTracked(a) && YearsTracked(o)
    ensures YearsTracked(Merge(a, o))
  {
    MergeRanges(a, o);
    MergeTotals(a, o);
    MergeYearRange(a, o);
  }

  lemma MergeYearRange(a: StatsValue, o: StatsValue)
    requires CountersValid(o) && RangeInv(a) && RangeInv(o) && YearRangeTracked(a) && YearRangeTracked(o)
    ensures YearRangeTracked(Merge(a, o))
  {
    MergeRanges(a, o);
    MergeKeys(a, o);
    YearRangeUnion(a.yearCounter.counts.Keys, o.yearCounter.counts.Keys, a.minYear, a.maxYear, o.minYear, o.maxYear);
  }

  /** Two key sets with their least and greatest members, united. */
  lemma YearRangeUnion(ka: set<int>, ko: set<int>, la: Option<int>, ha: Option<int>, lo: Option<int>, ho: Option<int>)
    requires (la.Some? <==> ka != {}) && (ha.Some? <==> ka != {})
    requires (lo.Some? <==> ko != {}) && (ho.Some? <==> ko != {})
    requires la.Some? && ha.Some? ==> la.value in ka && ha.value in ka
    requires lo.Some? && ho.Some? ==> lo.value in ko && ho.value in ko
    requires forall y :: y in ka ==> la.Some? && ha.Some? && la.value <= y <= ha.value
    requires forall y :: y in ko ==> lo.Some? && ho.Some? && lo.value <= y <= ho.value
    ensures var l, h := OptMinYear(la, lo), OptMaxYear(ha, ho);
      && (l.Some? <==> ka + ko != {}) && (h.Some? <==> ka + ko != {})
      && (l.Some? && h.Some? ==> l.value in ka + ko && h.value in ka + ko)
      && (forall y :: y in ka + ko ==> l.Some? && h.Some? && l.value <= y <= h.value)
  {
  }

  // ---------------------------------------------------------------------
  // Folding a sequence of records, as `analyze` does with the files of a
  // dataset.

  /** The records merged one after the other into an empty record. */
  function MergeAll(vs: seq<StatsValue>): StatsValue
    decreases |vs|
  {
    if vs == [] then Init() else Merge(MergeAll(vs[..|vs| - 1]), vs[|vs| - 1])
  }

  /** Records of one convention merge into one of that convention. */
  lemma {:induction false} MergeAllInv(vs: seq<StatsValue>, t: DatasetType)
    requires forall i :: 0 <= i < |vs| ==> Inv(vs[i], t)
    ensures Inv(MergeAll(vs), t)
    decreases |vs|
  {
    if vs == [] {
      InitInv(t);
    } else {
      MergeAllInv(vs[..|vs| - 1], t);
      MergeInv(MergeAll(vs[..|vs| - 1]), vs[|vs| - 1], t);
    }
  }

  /** The merged triple count is the sum of the parts'. */
  function TriplesSum(vs: seq<StatsValue>): nat
    decreases |vs|
  {
    if vs == [] then 0 else TriplesSum(vs[..|vs| - 1]) + vs[|vs| - 1].triples
  }

  lemma {:induction false} MergeAllTriples(vs: seq<StatsValue>)
    ensures MergeAll(vs).triples == TriplesSum(vs)
    decreases |vs|
  {
    if vs != [] {
      MergeAllTriples(vs[..|vs| - 1]);
    }
  }
}
