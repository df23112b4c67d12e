/** `sample_tail_entities.py`: read the triples of a split, find the
    entities seen at most `max_frequency` times as subject or object, and
    show a sample of the triples that involve them. The draw of
    `random.sample` is a nondeterministic choice of distinct positions. */
module TailSampling {
  import opened Wrappers
  import opened Text
  import opened Counters
  import opened Rows

  /** A `(subject, relation, object)` tuple. */
  datatype Triple = Triple(subj: string, rel: string, obj: string)

  // ---------------------------------------------------------------------
  // Loading.

  /** What one line contributes: nothing for a blank line or one with
      fewer than three columns, otherwise its first three columns. */
  function LineTriple(raw: string): (ts: seq<Triple>)
    ensures |ts| <= 1
    ensures ts == [] <==> TripleColumns(raw).None?
  {
    match TripleColumns(raw)
    case None => []
    case Some(cols) => [Triple(cols[0], cols[1], cols[2])]
  }

  /** The triples `load_triples` returns, in file order. */
  function Triples(lines: seq<string>): (ts: seq<Triple>)
    ensures |ts| <= |lines|
    decreases |lines|
  {
    if lines == [] then []
    else Triples(lines[..|lines| - 1]) + LineTriple(lines[|lines| - 1])
  }

  /** The first three columns of a kept row. */
  function TripleOf(cols: seq<string>): Triple
    requires |cols| >= 3
  {
    Triple(cols[0], cols[1], cols[2])
  }

  /** The triples are the first three columns of the triple lines that
      every script keeps, one for one and in the same order. */
  lemma {:induction false} TriplesKept(lines: seq<string>)
    ensures |Triples(lines)| == |KeptRows(lines)|
    ensures forall i :: 0 <= i < |KeptRows(lines)| ==> Triples(lines)[i] == TripleOf(KeptRows(lines)[i])
    decreases |lines|
  {
    if lines != [] {
      TriplesKept(lines[..|lines| - 1]);
    }
  }

  /** Loading the lines of two files one after the other gives the
      triples of the first, then those of the second. */
  lemma {:induction false} TriplesConcat(a: seq<string>, b: seq<string>)
    ensures Triples(a + b) == Triples(a) + Triples(b)
    decreases |b|
  {
    if b != [] {
      var b' := b[..|b| - 1];
      assert (a + b)[..|a + b| - 1] == a + b';
      assert (a + b)[|a + b| - 1] == b[|b| - 1];
      TriplesConcat(a, b');
    } else {
      assert a + b == a;
    }
  }

  lemma TriplesStep(lines: seq<string>, i: nat)
    requires i < |lines|
    ensures Triples(lines[..i + 1]) == Triples(lines[..i]) + LineTriple(lines[i])
  {
    assert lines[..i + 1][..i] == lines[..i];
  }

  /** `load_triples(path)` over the lines of the file. */
  method LoadTriples(lines: seq<string>) returns (triples: seq<Triple>)
    ensures triples == Triples(lines)
  {
    triples := [];
    for i := 0 to |lines|
      invariant triples == Triples(lines[..i])
    {
      TriplesStep(lines, i);
      var line := Strip(lines[i]);
      if line == "" {
        continue;
      }
      var tokens := Split(line, '\t');
      if |tokens| < 3 {
        continue;
      }
      triples := triples + [Triple(tokens[0], tokens[1], tokens[2])];
    }
    assert lines[..|lines|] == lines;
  }

  // ---------------------------------------------------------------------
  // Entity frequencies.

  /** The counter of `find_tail_entities`: each triple counts its subject
      and then its object. */
  function Frequencies(ts: seq<Triple>): (c: Counter<string>)
    ensures Valid(c)
    decreases |ts|
  {
    if ts == [] then Empty()
    else
      var t := ts[|ts| - 1];
      Inc(Inc(Frequencies(ts[..|ts| - 1]), t.subj), t.obj)
  }

  /** How often `e` is a subject or an object, a self-loop counting twice. */
  function Occurrences(ts: seq<Triple>, e: string): nat
    decreases |ts|
  {
    if ts == [] then 0
    else
      var t := ts[|ts| - 1];
      Occurrences(ts[..|ts| - 1], e) + (if t.subj == e then 1 else 0) + (if t.obj == e then 1 else 0)
  }

  /** The entity mentions in counting order: subject, object, subject, ... */
  function Mentions(ts: seq<Triple>): (ms: seq<string>)
    ensures |ms| == 2 * |ts|
    decreases |ts|
  {
    if ts == [] then []
    else
      var t := ts[|ts| - 1];
      Mentions(ts[..|ts| - 1]) + [t.subj, t.obj]
  }

  /** The distinct elements of `xs` in the order they first appear. */
  function FirstSeen(xs: seq<string>): (r: seq<string>)
    ensures Distinct(r)
    ensures forall x :: x in r <==> x in xs
    decreases |xs|
  {
    if xs == [] then []
    else
      var init := xs[..|xs| - 1];
      var x := xs[|xs| - 1];
      var r := FirstSeen(init);
      if x in init then r else r + [x]
  }

  /** An entity's count is its number of occurrences. */
  lemma {:induction false} FrequencyOccurrences(ts: seq<Triple>, e: string)
    ensures Get(Frequencies(ts), e) == Occurrences(ts, e)
    decreases |ts|
  {
    if ts != [] {
      FrequencyOccurrences(ts[..|ts| - 1], e);
    }
  }

  /** The frequencies add up to two per triple. */
  lemma {:induction false} FrequenciesTotal(ts: seq<Triple>)
    ensures Total(Frequencies(ts)) == 2 * |ts|
    decreases |ts|
  {
    if ts != [] {
      var t := ts[|ts| - 1];
      var c := Frequencies(ts[..|ts| - 1]);
      FrequenciesTotal(ts[..|ts| - 1]);
      TotalAdd(c, t.subj, 1);
      TotalAdd(Inc(c, t.subj), t.obj, 1);
    }
  }

  /** The counter lists the entities in the order they are first seen. */
  lemma {:induction false} FrequencyKeys(ts: seq<Triple>)
    ensures Frequencies(ts).keys == FirstSeen(Mentions(ts))
    decreases |ts|
  {
    if ts != [] {
      var init := ts[..|ts| - 1];
      var t := ts[|ts| - 1];
      FrequencyKeys(init);
      var m := Mentions(init);
      var ms := m + [t.subj];
      assert Mentions(ts) == ms + [t.obj];
      assert (ms + [t.obj])[..|ms|] == ms;
      assert ms[..|m|] == m;
    }
  }

  // ---------------------------------------------------------------------
  // The tail.

  /** The keys of `ks` whose count is at most `maxFrequency`, in order. */
  function AtMost(ks: seq<string>, c: Counter<string>, maxFrequency: int): seq<string>
    decreases |ks|
  {
    if ks == [] then []
    else
      var k := ks[|ks| - 1];
      AtMost(ks[..|ks| - 1], c, maxFrequency) + (if Get(c, k) <= maxFrequency then [k] else [])
  }

  /** The list comprehension over `counter.items()`. */
  function TailEntities(ts: seq<Triple>, maxFrequency: int): seq<string>
  {
    AtMost(Frequencies(ts).keys, Frequencies(ts), maxFrequency)
  }

  /** The filter keeps exactly the keys at or under the threshold, each as
      often as in `ks`. */
  lemma {:induction false} AtMostMembers(ks: seq<string>, c: Counter<string>, maxFrequency: int)
    ensures forall k :: k in AtMost(ks, c, maxFrequency) <==> k in ks && Get(c, k) <= maxFrequency
    ensures Distinct(ks) ==> Distinct(AtMost(ks, c, maxFrequency))
    decreases |ks|
  {
    if ks != [] {
      var init := ks[..|ks| - 1];
      AtMostMembers(init, c, maxFrequency);
      assert ks == init + [ks[|ks| - 1]];
      if Distinct(ks) {
        assert Distinct(init) by {
          forall i, j | 0 <= i < j < |init| ensures init[i] != init[j] {
            assert init[i] == ks[i] && init[j] == ks[j];
          }
        }
      }
    }
  }

  /** `find_tail_entities` returns every entity seen at most
      `maxFrequency` times, and only those, each once. */
  lemma TailEntitiesExactly(ts: seq<Triple>, maxFrequency: int)
    ensures Distinct(TailEntities(ts, maxFrequency))
    ensures forall e :: e in TailEntities(ts, maxFrequency) <==> 1 <= Occurrences(ts, e) <= maxFrequency
  {
    var c := Frequencies(ts);
    AtMostMembers(c.keys, c, maxFrequency);
    forall e ensures e in TailEntities(ts, maxFrequency) <==> 1 <= Occurrences(ts, e) <= maxFrequency {
      FrequencyOccurrences(ts, e);
      assert e in c.keys <==> e in c.counts;
      if e in c.counts {
        assert c.counts[e] >= 1 by { PositiveCounts(ts, e); }
      }
    }
  }

  /** Where `x` is first seen in `xs`. */
  function FirstIndex(xs: seq<string>, x: string): (i: nat)
    requires x in xs
    ensures i < |xs| && xs[i] == x
    ensures forall j :: 0 <= j < i ==> xs[j] != x
    decreases |xs|
  {
    var init := xs[..|xs| - 1];
    if x in init then FirstIndex(init, x) else |xs| - 1
  }

  /** `FirstSeen` lists the values in the order of their first
      occurrences. */
  lemma {:induction false} FirstSeenOrdered(xs: seq<string>)
    ensures forall i, j :: 0 <= i < j < |FirstSeen(xs)| ==>
      FirstIndex(xs, FirstSeen(xs)[i]) < FirstIndex(xs, FirstSeen(xs)[j])
    decreases |xs|
  {
    if xs != [] {
      var init := xs[..|xs| - 1];
      var x := xs[|xs| - 1];
      FirstSeenOrdered(init);
      var r, prev := FirstSeen(xs), FirstSeen(init);
      forall i, j | 0 <= i < j < |r| ensures FirstIndex(xs, r[i]) < FirstIndex(xs, r[j]) {
        assert r[i] == prev[i] && r[i] in init;
        if j < |prev| {
          assert r[j] == prev[j] && r[j] in init;
        } else {
          assert r[j] == x && x !in init;
        }
      }
    }
  }

  /** The filter keeps the order of `ks`: `idx` gives the strictly
      increasing positions in `ks` of the kept keys. */
  lemma {:induction false} AtMostOrder(ks: seq<string>, c: Counter<string>, maxFrequency: int) returns (idx: seq<nat>)
    ensures |idx| == |AtMost(ks, c, maxFrequency)|
    ensures forall k :: 0 <= k < |idx| ==> idx[k] < |ks| && AtMost(ks, c, maxFrequency)[k] == ks[idx[k]]
    ensures forall k, l :: 0 <= k < l < |idx| ==> idx[k] < idx[l]
    decreases |ks|
  {
    idx := [];
    if ks != [] {
      var n := |ks| - 1;
      var init := ks[..n];
      var before := AtMostOrder(init, c, maxFrequency);
      var prev := AtMost(init, c, maxFrequency);
      idx := if Get(c, ks[n]) <= maxFrequency then before + [n] else before;
      forall k | 0 <= k < |idx| ensures idx[k] < |ks| && AtMost(ks, c, maxFrequency)[k] == ks[idx[k]] {
        if k < |before| {
          assert AtMost(ks, c, maxFrequency)[k] == prev[k];
        }
      }
    }
  }

  /** `find_tail_entities` lists the tail entities in the order they are
      first seen as a subject or an object. */
  lemma TailEntitiesOrdered(ts: seq<Triple>, maxFrequency: int)
    ensures forall e :: e in TailEntities(ts, maxFrequency) ==> e in Mentions(ts)
    ensures forall i, j :: 0 <= i < j < |TailEntities(ts, maxFrequency)| ==>
      FirstIndex(Mentions(ts), TailEntities(ts, maxFrequency)[i]) < FirstIndex(Mentions(ts), TailEntities(ts, maxFrequency)[j])
  {
    var ms := Mentions(ts);
    var keys := Frequencies(ts).keys;
    FrequencyKeys(ts);
    FirstSeenOrdered(ms);
    var idx := AtMostOrder(keys, Frequencies(ts), maxFrequency);
    var tail := TailEntities(ts, maxFrequency);
    forall e | e in tail ensures e in ms {
      var k :| 0 <= k < |tail| && tail[k] == e;
      assert e == keys[idx[k]];
    }
    forall i, j | 0 <= i < j < |tail| ensures FirstIndex(ms, tail[i]) < FirstIndex(ms, tail[j]) {
      assert tail[i] == keys[idx[i]] && tail[j] == keys[idx[j]];
    }
  }

  /** Every counted entity has a positive count. */
  lemma {:induction false} PositiveCounts(ts: seq<Triple>, e: string)
    ensures e in Frequencies(ts).counts ==> Frequencies(ts).counts[e] >= 1
    decreases |ts|
  {
    if ts != [] {
      var t := ts[|ts| - 1];
      var c := Frequencies(ts[..|ts| - 1]);
      PositiveCounts(ts[..|ts| - 1], e);
      assert Get(c, e) >= 1 || e !in c.counts;
      assert Get(Inc(c, t.subj), e) >= 1 || e !in Inc(c, t.subj).counts;
    }
  }

  /** An entity that occurs at all occurs in some triple. */
  lemma {:induction false} OccursIn(ts: seq<Triple>, e: string)
    requires Occurrences(ts, e) >= 1
    ensures exists i :: 0 <= i < |ts| && (ts[i].subj == e || ts[i].obj == e)
    decreases |ts|
  {
    var t := ts[|ts| - 1];
    if t.subj != e && t.obj != e {
      var init := ts[..|ts| - 1];
      OccursIn(init, e);
      var i :| 0 <= i < |init| && (init[i].subj == e || init[i].obj == e);
      assert ts[i] == init[i];
    }
  }

  /** The loop of `find_tail_entities`, then the selection over the
      counter's items. */
  method FindTailEntities(triples: seq<Triple>, maxFrequency: int) returns (tail: seq<string>)
    ensures tail == TailEntities(triples, maxFrequency)
  {
    var counter := Empty();
    for i := 0 to |triples|
      invariant counter == Frequencies(triples[..i])
    {
      assert triples[..i + 1][..i] == triples[..i];
      counter := Inc(counter, triples[i].subj);
      counter := Inc(counter, triples[i].obj);
    }
    assert triples[..|triples|] == triples;
    tail := [];
    for i := 0 to |counter.keys|
      invariant tail == AtMost(counter.keys[..i], counter, maxFrequency)
    {
      assert counter.keys[..i + 1][..i] == counter.keys[..i];
      if Get(counter, counter.keys[i]) <= maxFrequency {
        tail := tail + [counter.keys[i]];
      }
    }
    assert counter.keys[..|counter.keys|] == counter.keys;
  }

  // ---------------------------------------------------------------------
  // Sampling.

  /** The triple mentions a tail entity as its subject or its object. */
  predicate InvolvesTail(t: Triple, tail: seq<string>)
  {
    t.subj in tail || t.obj in tail
  }

  /** The list comprehension of `sample_tail_triples`. */
  function TailTriples(ts: seq<Triple>, tail: seq<string>): seq<Triple>
    decreases |ts|
  {
    if ts == [] then []
    else
      var t := ts[|ts| - 1];
      TailTriples(ts[..|ts| - 1], tail) + (if InvolvesTail(t, tail) then [t] else [])
  }

  /** The filter keeps exactly the triples involving a tail entity. */
  lemma {:induction false} TailTriplesMembers(ts: seq<Triple>, tail: seq<string>)
    ensures forall t :: t in TailTriples(ts, tail) <==> t in ts && InvolvesTail(t, tail)
    decreases |ts|
  {
    if ts != [] {
      TailTriplesMembers(ts[..|ts| - 1], tail);
      assert ts == ts[..|ts| - 1] + [ts[|ts| - 1]];
    }
  }

  /** The filter keeps the file order: filtering two pieces and joining
      them is filtering the joined list. */
  lemma {:induction false} TailTriplesConcat(a: seq<Triple>, b: seq<Triple>, tail: seq<string>)
    ensures TailTriples(a + b, tail) == TailTriples(a, tail) + TailTriples(b, tail)
    decreases |b|
  {
    if b != [] {
      var b' := b[..|b| - 1];
      assert (a + b)[..|a + b| - 1] == a + b';
      assert (a + b)[|a + b| - 1] == b[|b| - 1];
      TailTriplesConcat(a, b', tail);
    } else {
      assert a + b == a;
    }
  }

  /** Every triple is kept or dropped: the kept ones and the dropped ones
      together are the input. */
  lemma {:induction false} TailTriplesSplit(ts: seq<Triple>, tail: seq<string>)
    ensures multiset(TailTriples(ts, tail)) + multiset(NonTailTriples(ts, tail)) == multiset(ts)
    decreases |ts|
  {
    if ts != [] {
      var init := ts[..|ts| - 1];
      var t := ts[|ts| - 1];
      TailTriplesSplit(init, tail);
      assert ts == init + [t];
    }
  }

  /** So the filter keeps at most all of the triples. */
  lemma TailTriplesCount(ts: seq<Triple>, tail: seq<string>)
    ensures |TailTriples(ts, tail)| + |NonTailTriples(ts, tail)| == |ts|
  {
    TailTriplesSplit(ts, tail);
    assert |multiset(TailTriples(ts, tail)) + multiset(NonTailTriples(ts, tail))| == |multiset(ts)|;
  }

  /** The triples the filter drops. */
  function NonTailTriples(ts: seq<Triple>, tail: seq<string>): seq<Triple>
    decreases |ts|
  {
    if ts == [] then []
    else
      var t := ts[|ts| - 1];
      NonTailTriples(ts[..|ts| - 1], tail) + (if InvolvesTail(t, tail) then [] else [t])
  }

  /** When there is a tail entity there is a triple to sample from. */
  lemma TailCovered(ts: seq<Triple>, maxFrequency: int)
    requires TailEntities(ts, maxFrequency) != []
    ensures TailTriples(ts, TailEntities(ts, maxFrequency)) != []
  {
    var tail := TailEntities(ts, maxFrequency);
    var e := tail[0];
    TailEntitiesExactly(ts, maxFrequency);
    OccursIn(ts, e);
    var i :| 0 <= i < |ts| && (ts[i].subj == e || ts[i].obj == e);
    TailTriplesMembers(ts, tail);
    assert ts[i] in TailTriples(ts, tail);
  }

  /** `sample` holds elements of `population` at distinct positions. */
  ghost predicate DrawnFrom(sample: seq<Triple>, population: seq<Triple>)
  {
    exists pos: seq<nat> :: Positions(pos, |sample|, |population|) && forall k :: 0 <= k < |sample| ==> sample[k] == population[pos[k]]
  }

  /** `pos` lists `size` distinct positions below `n`. */
  predicate Positions(pos: seq<nat>, size: nat, n: nat)
  {
    |pos| == size && Distinct(pos) && forall k :: 0 <= k < |pos| ==> pos[k] < n
  }

  /** The first `size` positions. */
  function FirstPositions(size: nat): (pos: seq<nat>)
    ensures |pos| == size && forall k :: 0 <= k < size ==> pos[k] == k
  {
    seq(size, k requires 0 <= k < size => k)
  }

  /** Why sampling fails: `random.sample` refuses a negative size. */
  datatype SampleError = NegativeSampleSize(size: int)

  /** `sample_tail_triples`: all tail triples when there are at most
      `sampleSize` of them, otherwise `sampleSize` of them drawn from
      distinct positions. */
  method SampleTailTriples(triples: seq<Triple>, tail: seq<string>, sampleSize: int)
    returns (r: Result<seq<Triple>, SampleError>)
    ensures |TailTriples(triples, tail)| <= sampleSize ==> r == Success(TailTriples(triples, tail))
    ensures r.Failure? <==> sampleSize < 0
    ensures r.Failure? ==> r.error == NegativeSampleSize(sampleSize)
    ensures r.Success? && |TailTriples(triples, tail)| > sampleSize ==>
      |r.value| == sampleSize && DrawnFrom(r.value, TailTriples(triples, tail))
    ensures r.Success? ==> forall t :: t in r.value ==> t in triples && InvolvesTail(t, tail)
  {
    var tailTriples := TailTriples(triples, tail);
    TailTriplesMembers(triples, tail);
    if |tailTriples| <= sampleSize {
      return Success(tailTriples);
    }
    if sampleSize < 0 {
      return Failure(NegativeSampleSize(sampleSize));
    }
    var size: nat := sampleSize;
    assert Positions(FirstPositions(size), size, |tailTriples|);
    var pos: seq<nat> :| |pos| == size && Distinct(pos) && forall k :: 0 <= k < |pos| ==> pos[k] < |tailTriples|;
    var sample := seq(size, k requires 0 <= k < size => tailTriples[pos[k]]);
    assert forall k :: 0 <= k < |sample| ==> sample[k] == tailTriples[pos[k]];
    forall t | t in sample ensures t in tailTriples {
      var k :| 0 <= k < |sample| && sample[k] == t;
      assert tailTriples[pos[k]] == t;
    }
    assert Positions(pos, |sample|, |tailTriples|);
    return Success(sample);
  }

  // ---------------------------------------------------------------------
  // The whole run.

  /** How `main` ends. */
  datatype TailOutcome =
    | NoTriples
    | NoTailEntities
    | SampleFailed(error: SampleError)
    | Sampled(tail: seq<string>, samples: seq<Triple>)

  /** `main` over the lines of the dataset file: no triples is fatal, no
      tail entity ends the run with a message, otherwise a sample of the
      tail triples is shown. */
  method TailRun(lines: seq<string>, maxFrequency: int, sampleSize: int) returns (r: TailOutcome)
    ensures r == NoTriples <==> Triples(lines) == []
    ensures r == NoTailEntities <==> Triples(lines) != [] && TailEntities(Triples(lines), maxFrequency) == []
    ensures r.SampleFailed? <==> Triples(lines) != [] && TailEntities(Triples(lines), maxFrequency) != [] && sampleSize < 0
    ensures r.Sampled? ==> r.tail == TailEntities(Triples(lines), maxFrequency)
    ensures r.Sampled? ==> r.samples != [] || sampleSize == 0
    ensures r.Sampled? && |TailTriples(Triples(lines), r.tail)| <= sampleSize ==>
      r.samples == TailTriples(Triples(lines), r.tail)
    ensures r.Sampled? && |TailTriples(Triples(lines), r.tail)| > sampleSize ==>
      |r.samples| == sampleSize && DrawnFrom(r.samples, TailTriples(Triples(lines), r.tail))
  {
    var triples := LoadTriples(lines);
    if triples == [] {
      return NoTriples;
    }
    var tail := FindTailEntities(triples, maxFrequency);
    if tail == [] {
      return NoTailEntities;
    }
    TailCovered(triples, maxFrequency);
    var samples := SampleTailTriples(triples, tail, sampleSize);
    match samples
    case Failure(e) => return SampleFailed(e);
    case Success(s) => return Sampled(tail, s);
  }
}
