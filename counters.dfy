/** Python's `collections.Counter` as the scripts use it: `c[k] += 1`,
    `c.update(other)`, `sum(c.values())`, `c.items()` in first-insertion order
    and `c.most_common(n)`. */
module Counters {
  import opened Text

  /** A counter: its keys in first-insertion order and the count of each. */
  datatype Counter<K(==,!new)> = Counter(keys: seq<K>, counts: map<K, nat>)

  /** Every key listed once, and the listed keys are the counted ones. */
  ghost predicate Valid<K(!new)>(c: Counter<K>)
  {
    Distinct(c.keys) && forall k :: k in c.counts <==> k in c.keys
  }

  /** `Counter()`. */
  function Empty<K(==,!new)>(): (c: Counter<K>)
    ensures Valid(c) && forall k :: Get(c, k) == 0
  {
    Counter([], map[])
  }

  /** `c[k]`: zero for a key never counted. */
  function Get<K(==,!new)>(c: Counter<K>, k: K): nat
  {
    if k in c.counts then c.counts[k] else 0
  }

  /** `c[k] += n`: only `k`'s count moves, and a new key goes last. */
  function Add<K(==,!new)>(c: Counter<K>, k: K, n: nat): (r: Counter<K>)
    ensures Valid(c) ==> Valid(r)
    ensures forall j :: Get(r, j) == Get(c, j) + (if j == k then n else 0)
    ensures r.keys == if k in c.counts then c.keys else c.keys + [k]
  {
    if k in c.counts then Counter(c.keys, c.counts[k := c.counts[k] + n])
    else Counter(c.keys + [k], c.counts[k := n])
  }

  /** `c[k] += 1`. */
  function Inc<K(==,!new)>(c: Counter<K>, k: K): Counter<K>
  {
    Add(c, k, 1)
  }

  /** The loop of `Counter.update`, over the keys `ks` of `d`. */
  function UpdateFrom<K(==,!new)>(c: Counter<K>, d: Counter<K>, ks: seq<K>): Counter<K>
    decreases |ks|
  {
    if ks == [] then c
    else UpdateFrom(Add(c, ks[0], Get(d, ks[0])), d, ks[1..])
  }

  lemma {:induction false} UpdateFromValid<K(!new)>(c: Counter<K>, d: Counter<K>, ks: seq<K>)
    requires Valid(c)
    ensures Valid(UpdateFrom(c, d, ks))
    decreases |ks|
  {
    if ks != [] {
      UpdateFromValid(Add(c, ks[0], Get(d, ks[0])), d, ks[1..]);
    }
  }

  lemma {:induction false} UpdateFromDomain<K(!new)>(c: Counter<K>, d: Counter<K>, ks: seq<K>)
    ensures UpdateFrom(c, d, ks).counts.Keys == c.counts.Keys + set k | k in ks
    decreases |ks|
  {
    if ks != [] {
      UpdateFromDomain(Add(c, ks[0], Get(d, ks[0])), d, ks[1..]);
      assert (set k | k in ks) == {ks[0]} + set k | k in ks[1..];
    }
  }

  lemma {:induction false} UpdateFromGet<K(!new)>(c: Counter<K>, d: Counter<K>, ks: seq<K>)
    requires Distinct(ks)
    ensures forall j :: Get(UpdateFrom(c, d, ks), j) == Get(c, j) + (if j in ks then Get(d, j) else 0)
    decreases |ks|
  {
    if ks != [] {
      var c' := Add(c, ks[0], Get(d, ks[0]));
      UpdateFromGet(c', d, ks[1..]);
      assert ks[0] !in ks[1..];
      assert forall j :: j in ks <==> j == ks[0] || j in ks[1..];
    }
  }

  lemma {:induction false} UpdateFromPrefix<K(!new)>(c: Counter<K>, d: Counter<K>, ks: seq<K>)
    ensures |c.keys| <= |UpdateFrom(c, d, ks).keys|
    ensures UpdateFrom(c, d, ks).keys[..|c.keys|] == c.keys
    decreases |ks|
  {
    if ks != [] {
      var c' := Add(c, ks[0], Get(d, ks[0]));
      UpdateFromPrefix(c', d, ks[1..]);
      var r := UpdateFrom(c', d, ks[1..]);
      assert c'.keys[..|c.keys|] == c.keys;
      assert r.keys[..|c.keys|] == r.keys[..|c'.keys|][..|c.keys|];
    }
  }

  lemma DistinctTail<T>(s: seq<T>)
    requires Distinct(s) && s != []
    ensures Distinct(s[1..]) && s[0] !in s[1..]
  {
    forall i, j | 0 <= i < j < |s| - 1 ensures s[1..][i] != s[1..][j] {
      assert s[1..][i] == s[i + 1] && s[1..][j] == s[j + 1];
    }
  }

  /** Keys not counted yet are appended in the order `ks` lists them. */
  lemma {:induction false} UpdateFromFresh<K(!new)>(c: Counter<K>, d: Counter<K>, ks: seq<K>)
    requires Distinct(ks)
    requires forall k :: k in ks ==> k !in c.counts
    ensures UpdateFrom(c, d, ks).keys == c.keys + ks
    decreases |ks|
  {
    if ks != [] {
      var k0, rest := ks[0], ks[1..];
      assert k0 in ks;
      var c' := Add(c, k0, Get(d, k0));
      DistinctTail(ks);
      forall k | k in rest ensures k !in c'.counts {
        assert k in ks;
      }
      UpdateFromFresh(c', d, rest);
      assert c.keys + [k0] + rest == c.keys + ks;
    }
  }

  /** `c.update(d)`: counts add up key by key, `c`'s keys keep their place
      and `d`'s new keys follow. */
  function Update<K(==,!new)>(c: Counter<K>, d: Counter<K>): (r: Counter<K>)
    ensures Valid(c) ==> Valid(r)
    ensures Valid(d) ==> forall j :: Get(r, j) == Get(c, j) + Get(d, j)
    ensures Valid(d) ==> r.counts.Keys == c.counts.Keys + d.counts.Keys
    ensures |c.keys| <= |r.keys| && r.keys[..|c.keys|] == c.keys
  {
    UpdateFacts(c, d);
    UpdateFrom(c, d, d.keys)
  }

  lemma UpdateFacts<K(!new)>(c: Counter<K>, d: Counter<K>)
    ensures var r := UpdateFrom(c, d, d.keys);
      && (Valid(c) ==> Valid(r))
      && (Valid(d) ==> forall j :: Get(r, j) == Get(c, j) + Get(d, j))
      && (Valid(d) ==> r.counts.Keys == c.counts.Keys + d.counts.Keys)
      && |c.keys| <= |r.keys| && r.keys[..|c.keys|] == c.keys
  {
    if Valid(c) { UpdateFromValid(c, d, d.keys); }
    if Valid(d) {
      UpdateFromGet(c, d, d.keys);
      assert (set k | k in d.keys) == d.counts.Keys;
    }
    UpdateFromDomain(c, d, d.keys);
    UpdateFromPrefix(c, d, d.keys);
  }

  /** Two counters with the same keys and the same counts have the same
      `counts` map (they may still list their keys in different orders). */
  lemma SameCounts<K(!new)>(c: Counter<K>, d: Counter<K>)
    requires c.counts.Keys == d.counts.Keys
    requires forall j :: Get(c, j) == Get(d, j)
    ensures c.counts == d.counts
  {
    forall j | j in c.counts ensures c.counts[j] == d.counts[j] {
      assert Get(c, j) == Get(d, j);
    }
  }

  lemma {:induction false} UpdateFromEmpty<K(!new)>(d: Counter<K>)
    requires Valid(d)
    ensures UpdateFrom(Empty(), d, d.keys) == d
  {
    var e: Counter<K> := Empty();
    var r := UpdateFrom(e, d, d.keys);
    assert r.keys == d.keys by {
      UpdateFromFresh(e, d, d.keys);
    }
    assert r.counts.Keys == d.counts.Keys by {
      UpdateFromDomain(e, d, d.keys);
      assert (set k | k in d.keys) == d.counts.Keys;
    }
    assert forall j :: Get(r, j) == Get(d, j) by {
      UpdateFromGet(e, d, d.keys);
      forall j ensures Get(r, j) == Get(d, j) {
        if j !in d.keys { assert j !in d.counts; }
      }
    }
    SameCounts(r, d);
  }

  /** `d` merged into an empty counter is `d` itself, key order included. */
  lemma {:induction false} UpdateEmpty<K(!new)>(d: Counter<K>)
    requires Valid(d)
    ensures Update(Empty(), d) == d
  {
    UpdateFromEmpty(d);
  }

  /** Merging an empty counter changes nothing. */
  lemma UpdateWithEmpty<K(!new)>(c: Counter<K>)
    ensures Update(c, Empty()) == c
  {
  }

  /** The sum of the counts of the keys `ks`. */
  function SumOver<K(==,!new)>(c: Counter<K>, ks: seq<K>): nat
  {
    if ks == [] then 0 else Get(c, ks[0]) + SumOver(c, ks[1..])
  }

  /** `sum(c.values())`. */
  function Total<K(==,!new)>(c: Counter<K>): nat
  {
    SumOver(c, c.keys)
  }

  lemma {:induction false} SumOverAppend<K(!new)>(c: Counter<K>, ks: seq<K>, k: K)
    ensures SumOver(c, ks + [k]) == SumOver(c, ks) + Get(c, k)
  {
    if ks != [] {
      assert (ks + [k])[1..] == ks[1..] + [k];
      SumOverAppend(c, ks[1..], k);
    }
  }

  lemma {:induction false} SumOverBump<K(!new)>(c: Counter<K>, r: Counter<K>, ks: seq<K>, k: K, n: nat)
    requires Distinct(ks)
    requires forall j :: Get(r, j) == Get(c, j) + (if j == k then n else 0)
    ensures SumOver(r, ks) == SumOver(c, ks) + (if k in ks then n else 0)
  {
    if ks != [] {
      SumOverBump(c, r, ks[1..], k, n);
      assert ks[0] == k ==> k !in ks[1..];
    }
  }

  /** `c[k] += n` raises the total by `n`. */
  lemma {:induction false} TotalAdd<K(!new)>(c: Counter<K>, k: K, n: nat)
    requires Valid(c)
    ensures Total(Add(c, k, n)) == Total(c) + n
  {
    var r := Add(c, k, n);
    if k in c.counts {
      SumOverBump(c, r, c.keys, k, n);
    } else {
      SumOverAppend(r, c.keys, k);
      SumOverBump(c, r, c.keys, k, n);
    }
  }

  lemma {:induction false} TotalUpdateFrom<K(!new)>(c: Counter<K>, d: Counter<K>, ks: seq<K>)
    requires Valid(c)
    ensures Total(UpdateFrom(c, d, ks)) == Total(c) + SumOver(d, ks)
    decreases |ks|
  {
    if ks != [] {
      var c' := Add(c, ks[0], Get(d, ks[0]));
      TotalAdd(c, ks[0], Get(d, ks[0]));
      TotalUpdateFrom(c', d, ks[1..]);
    }
  }

  /** `c.update(d)` adds `d`'s total to `c`'s. */
  lemma {:induction false} TotalUpdate<K(!new)>(c: Counter<K>, d: Counter<K>)
    requires Valid(c)
    ensures Total(Update(c, d)) == Total(c) + Total(d)
  {
    TotalUpdateFrom(c, d, d.keys);
  }

  /** A counter lists exactly as many keys as it counts. */
  lemma {:induction false} KeyCount<K(!new)>(c: Counter<K>)
    requires Valid(c)
    ensures |c.keys| == |c.counts.Keys|
    decreases |c.keys|
  {
    if c.keys != [] {
      var k := c.keys[|c.keys| - 1];
      var p := c.keys[..|c.keys| - 1];
      var c' := Counter(p, c.counts - {k});
      assert c.keys == p + [k];
      assert k !in p;
      assert Valid(c');
      KeyCount(c');
      assert c.counts.Keys == c'.counts.Keys + {k};
    }
  }

  // ---------------------------------------------------------------------
  // Ranking: `Counter.most_common(n)`, i.e. a stable sort by descending
  // count (`heapq.nlargest` keeps equal counts in iteration order).

  /** The keys of `s` whose count is `v`, in the order of `s`. */
  function WithCount<K(==,!new)>(s: seq<K>, c: Counter<K>, v: nat): seq<K>
  {
    if s == [] then []
    else (if Get(c, s[0]) == v then [s[0]] else []) + WithCount(s[1..], c, v)
  }

  ghost predicate NonIncreasing<K(!new)>(s: seq<K>, c: Counter<K>)
  {
    forall i, j :: 0 <= i < j < |s| ==> Get(c, s[i]) >= Get(c, s[j])
  }

  /** Places `x` before the first key of `s` whose count does not exceed
      its own. */
  function InsertByCount<K(==,!new)>(x: K, s: seq<K>, c: Counter<K>): (r: seq<K>)
    ensures multiset(r) == multiset([x] + s)
  {
    if s == [] || Get(c, s[0]) <= Get(c, x) then
      [x] + s
    else
      assert s == [s[0]] + s[1..];
      [s[0]] + InsertByCount(x, s[1..], c)
  }

  lemma {:induction false} InsertByCountSorted<K(!new)>(x: K, s: seq<K>, c: Counter<K>)
    requires NonIncreasing(s, c)
    ensures NonIncreasing(InsertByCount(x, s, c), c)
  {
    if s != [] && Get(c, s[0]) > Get(c, x) {
      InsertByCountSorted(x, s[1..], c);
      var t := InsertByCount(x, s[1..], c);
      var r := [s[0]] + t;
      forall i, j | 0 <= i < j < |r| ensures Get(c, r[i]) >= Get(c, r[j]) {
        if i == 0 {
          assert r[j] == t[j - 1];
          assert r[j] in multiset([x] + s[1..]);
          if r[j] != x {
            var k :| 0 <= k < |s[1..]| && s[1..][k] == r[j];
            assert s[k + 1] == r[j];
          }
        } else {
          assert r[i] == t[i - 1] && r[j] == t[j - 1];
        }
      }
    }
  }

  lemma {:induction false} InsertByCountDistinct<K(!new)>(x: K, s: seq<K>, c: Counter<K>)
    requires x !in s && Distinct(s)
    ensures Distinct(InsertByCount(x, s, c))
  {
    if s != [] && Get(c, s[0]) > Get(c, x) {
      InsertByCountDistinct(x, s[1..], c);
      var t := InsertByCount(x, s[1..], c);
      assert s[0] !in multiset([x] + s[1..]);
      assert s[0] !in t;
      var r := [s[0]] + t;
      forall i, j | 0 <= i < j < |r| ensures r[i] != r[j] {
        if i == 0 { assert r[j] in t; } else { assert r[i] == t[i - 1] && r[j] == t[j - 1]; }
      }
    }
  }

  lemma {:induction false} InsertByCountWithCount<K(!new)>(x: K, s: seq<K>, c: Counter<K>, v: nat)
    ensures WithCount(InsertByCount(x, s, c), c, v) == WithCount([x] + s, c, v)
  {
    if s != [] && Get(c, s[0]) > Get(c, x) {
      InsertByCountWithCount(x, s[1..], c, v);
      var t := InsertByCount(x, s[1..], c);
      var r := [s[0]] + t;
      assert r[1..] == t;
      assert ([x] + s)[1..] == s;
      assert ([x] + s[1..])[1..] == s[1..];
      var a := if Get(c, s[0]) == v then [s[0]] else [];
      var b := if Get(c, x) == v then [x] else [];
      assert WithCount(r, c, v) == a + WithCount([x] + s[1..], c, v);
      assert WithCount([x] + s[1..], c, v) == b + WithCount(s[1..], c, v);
      assert WithCount([x] + s, c, v) == b + WithCount(s, c, v);
      assert WithCount(s, c, v) == a + WithCount(s[1..], c, v);
      assert a == [] || b == [];
    }
  }

  /** The keys of `ks` in descending count, equal counts in the order of
      `ks` (insertion sort). */
  function Rank<K(==,!new)>(ks: seq<K>, c: Counter<K>): (r: seq<K>)
    ensures multiset(r) == multiset(ks)
  {
    if ks == [] then []
    else
      assert ks == [ks[0]] + ks[1..];
      InsertByCount(ks[0], Rank(ks[1..], c), c)
  }

  /** Ranking sorts by descending count. */
  lemma {:induction false} RankSorted<K(!new)>(ks: seq<K>, c: Counter<K>)
    ensures NonIncreasing(Rank(ks, c), c)
  {
    if ks != [] {
      RankSorted(ks[1..], c);
      InsertByCountSorted(ks[0], Rank(ks[1..], c), c);
    }
  }

  lemma {:induction false} RankDistinct<K(!new)>(ks: seq<K>, c: Counter<K>)
    requires Distinct(ks)
    ensures Distinct(Rank(ks, c))
  {
    if ks != [] {
      RankDistinct(ks[1..], c);
      assert ks[0] !in multiset(ks[1..]);
      InsertByCountDistinct(ks[0], Rank(ks[1..], c), c);
    }
  }

  /** Ranking is stable: the keys of any one count keep their order. */
  lemma {:induction false} RankStable<K(!new)>(ks: seq<K>, c: Counter<K>, v: nat)
    ensures WithCount(Rank(ks, c), c, v) == WithCount(ks, c, v)
  {
    if ks != [] {
      var rest := Rank(ks[1..], c);
      RankStable(ks[1..], c, v);
      InsertByCountWithCount(ks[0], rest, c, v);
      assert ([ks[0]] + rest)[1..] == rest;
    }
  }

  predicate IsPrefix<T(==)>(a: seq<T>, b: seq<T>)
  {
    |a| <= |b| && b[..|a|] == a
  }

  lemma {:induction false} WithCountPrefix<K(!new)>(s: seq<K>, p: nat, c: Counter<K>, v: nat)
    requires p <= |s|
    ensures IsPrefix(WithCount(s[..p], c, v), WithCount(s, c, v))
  {
    if p > 0 {
      WithCountPrefix(s[1..], p - 1, c, v);
      assert s[..p][1..] == s[1..][..p - 1];
      assert s[..p][0] == s[0];
    }
  }

  /** The first elements of each pair. */
  function KeysOf<K>(items: seq<(K, nat)>): (ks: seq<K>)
    ensures |ks| == |items| && forall i :: 0 <= i < |items| ==> ks[i] == items[i].0
  {
    seq(|items|, i requires 0 <= i < |items| => items[i].0)
  }

  /** The ranked keys cut to `m`, each paired with its count. */
  function Top<K(==,!new)>(ranked: seq<K>, c: Counter<K>, m: nat): (r: seq<(K, nat)>)
    requires m <= |ranked|
    ensures |r| == m && KeysOf(r) == ranked[..m]
    ensures forall i :: 0 <= i < m ==> r[i].1 == Get(c, ranked[i])
  {
    var r := seq(m, i requires 0 <= i < m => (ranked[i], Get(c, ranked[i])));
    assert KeysOf(r) == ranked[..m];
    r
  }

  /** `c.most_common(n)`: `max(n, 0)` entries (or all of them), each with
      its own count, counts non-increasing, every key left out counted no
      more than any key shown, and among keys of equal count the ones
      inserted first. */
  function MostCommon<K(==,!new)>(c: Counter<K>, n: int): (r: seq<(K, nat)>)
    requires Valid(c)
    ensures |r| == if n <= 0 then 0 else if n < |c.keys| then n else |c.keys|
    ensures forall i :: 0 <= i < |r| ==> r[i].0 in c.counts && r[i].1 == c.counts[r[i].0]
    ensures forall i, j :: 0 <= i < j < |r| ==> r[i].1 >= r[j].1
    ensures Distinct(KeysOf(r))
    ensures forall k :: k in c.counts && k !in KeysOf(r) ==>
      forall i :: 0 <= i < |r| ==> c.counts[k] <= r[i].1
    ensures forall v :: IsPrefix(WithCount(KeysOf(r), c, v), WithCount(c.keys, c, v))
  {
    var ranked := Rank(c.keys, c);
    assert |ranked| == |c.keys| by {
      assert |multiset(ranked)| == |multiset(c.keys)|;
    }
    var m := if n <= 0 then 0 else if n < |ranked| then n else |ranked|;
    TopCounted(c, ranked, m);
    TopOrdered(c, ranked, m);
    TopStable(c, ranked, m);
    Top(ranked, c, m)
  }

  /** The top pairs are distinct counted keys with their counts. */
  lemma TopCounted<K(!new)>(c: Counter<K>, ranked: seq<K>, m: nat)
    requires Valid(c) && ranked == Rank(c.keys, c) && m <= |ranked|
    ensures var r := Top(ranked, c, m);
      && (forall i :: 0 <= i < |r| ==> r[i].0 in c.counts && r[i].1 == c.counts[r[i].0])
      && Distinct(KeysOf(r))
  {
    var r := Top(ranked, c, m);
    RankDistinct(c.keys, c);
    forall i | 0 <= i < m ensures ranked[i] in c.counts && r[i].0 == ranked[i] {
      assert ranked[i] in multiset(c.keys);
      assert KeysOf(r)[i] == ranked[i];
    }
    assert Distinct(KeysOf(r)) by {
      forall i, j | 0 <= i < j < m ensures KeysOf(r)[i] != KeysOf(r)[j] {
        assert KeysOf(r)[i] == ranked[i] && KeysOf(r)[j] == ranked[j];
      }
    }
  }

  /** The top pairs descend by count, and no key left out counts more. */
  lemma TopOrdered<K(!new)>(c: Counter<K>, ranked: seq<K>, m: nat)
    requires Valid(c) && ranked == Rank(c.keys, c) && m <= |ranked|
    ensures var r := Top(ranked, c, m);
      && (forall i, j :: 0 <= i < j < |r| ==> r[i].1 >= r[j].1)
      && (forall k :: k in c.counts && k !in KeysOf(r) ==>
           forall i :: 0 <= i < |r| ==> c.counts[k] <= r[i].1)
  {
    var r := Top(ranked, c, m);
    RankSorted(c.keys, c);
    forall k | k in c.counts && k !in KeysOf(r) ensures forall i :: 0 <= i < m ==> c.counts[k] <= r[i].1 {
      assert k in multiset(ranked);
      var j :| 0 <= j < |ranked| && ranked[j] == k;
    }
  }

  /** Ties keep the order in which their keys were first counted. */
  lemma TopStable<K(!new)>(c: Counter<K>, ranked: seq<K>, m: nat)
    requires ranked == Rank(c.keys, c) && m <= |ranked|
    ensures var r := Top(ranked, c, m);
      forall v :: IsPrefix(WithCount(KeysOf(r), c, v), WithCount(c.keys, c, v))
  {
    forall v ensures IsPrefix(WithCount(KeysOf(Top(ranked, c, m)), c, v), WithCount(c.keys, c, v)) {
      WithCountPrefix(ranked, m, c, v);
      RankStable(c.keys, c, v);
    }
  }
}
