/** The algebra of `Counter.update` on counts: commutative, associative,
    and determined by the counts of its arguments. */
module CounterLaws {
  import opened Counters

  /** The counts of `c.update(d)` do not depend on the order of the two
      counters (only the order of the keys does). */
  lemma UpdateCommutes<K(!new)>(c: Counter<K>, d: Counter<K>)
    requires Valid(c) && Valid(d)
    ensures Update(c, d).counts == Update(d, c).counts
  {
    UpdateCommutesPointwise(c, d);
    SameCounts(Update(c, d), Update(d, c));
  }

  lemma UpdateCommutesPointwise<K(!new)>(c: Counter<K>, d: Counter<K>)
    requires Valid(c) && Valid(d)
    ensures Update(c, d).counts.Keys == Update(d, c).counts.Keys
    ensures forall j :: Get(Update(c, d), j) == Get(Update(d, c), j)
  {
  }

  /** Updating is associative on counts. */
  lemma UpdateAssociates<K(!new)>(c: Counter<K>, d: Counter<K>, e: Counter<K>)
    requires Valid(d) && Valid(e)
    ensures Update(Update(c, d), e).counts == Update(c, Update(d, e)).counts
  {
    UpdateAssociatesPointwise(c, d, e);
    SameCounts(Update(Update(c, d), e), Update(c, Update(d, e)));
  }

  lemma UpdateAssociatesPointwise<K(!new)>(c: Counter<K>, d: Counter<K>, e: Counter<K>)
    requires Valid(d) && Valid(e)
    ensures Update(Update(c, d), e).counts.Keys == Update(c, Update(d, e)).counts.Keys
    ensures forall j :: Get(Update(Update(c, d), e), j) == Get(Update(c, Update(d, e)), j)
  {
    var cd, de := Update(c, d), Update(d, e);
    SumOfThree(c, d, e, cd, de, Update(cd, e), Update(c, de));
  }

  lemma SumOfThree<K(!new)>(c: Counter<K>, d: Counter<K>, e: Counter<K>,
                            cd: Counter<K>, de: Counter<K>, l: Counter<K>, r: Counter<K>)
    requires cd.counts.Keys == c.counts.Keys + d.counts.Keys && (forall j :: Get(cd, j) == Get(c, j) + Get(d, j))
    requires de.counts.Keys == d.counts.Keys + e.counts.Keys && (forall j :: Get(de, j) == Get(d, j) + Get(e, j))
    requires l.counts.Keys == cd.counts.Keys + e.counts.Keys && (forall j :: Get(l, j) == Get(cd, j) + Get(e, j))
    requires r.counts.Keys == c.counts.Keys + de.counts.Keys && (forall j :: Get(r, j) == Get(c, j) + Get(de, j))
    ensures l.counts.Keys == r.counts.Keys && forall j :: Get(l, j) == Get(r, j)
  {
  }

  /** The counts of `c.update(d)` depend only on the counts of `c` and `d`. */
  lemma UpdateCongruent<K(!new)>(c: Counter<K>, c': Counter<K>, d: Counter<K>, d': Counter<K>)
    requires Valid(d) && Valid(d')
    requires c.counts == c'.counts && d.counts == d'.counts
    ensures Update(c, d).counts == Update(c', d').counts
  {
    assert forall j :: Get(c, j) == Get(c', j) && Get(d, j) == Get(d', j);
    SameCounts(Update(c, d), Update(c', d'));
  }

}
