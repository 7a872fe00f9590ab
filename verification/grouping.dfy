/** Grouped sums as the charts build them: a table filled record by record
    with `(get(k) || 0) + v`, read back as its entries in insertion order,
    then ordered by `Array.prototype.sort` with a numeric comparator
    `(a, b) => rank(a) - rank(b)`. The analysis page uses a `Map`; the
    dashboard uses a plain object, whose own different read-back order and
    inherited keys are not modelled. */
module Grouping {
  import opened Seqs

  /** A point of a bar, line or pie chart, `{ label, value }`; the label is
      called `name` here. */
  datatype ChartPoint = ChartPoint(name: string, value: real)

  function PointValue(p: ChartPoint): real { p.value }

  function Names(ps: seq<ChartPoint>): (r: seq<string>)
    ensures |r| == |ps|
    ensures forall i :: 0 <= i < |ps| ==> r[i] == ps[i].name
  {
    if ps == [] then [] else [ps[0].name] + Names(ps[1..])
  }

  /** One entry of the map: a key and the running total stored under it. */
  datatype Entry<K> = Entry(key: K, total: real)

  function EntryTotal<K>(e: Entry<K>): real { e.total }

  function KeysOf<K>(es: seq<Entry<K>>): (r: seq<K>)
    ensures |r| == |es|
    ensures forall i :: 0 <= i < |es| ==> r[i] == es[i].key
  {
    if es == [] then [] else [es[0].key] + KeysOf(es[1..])
  }

  /** Sum of all totals. */
  function TotalOf<K>(es: seq<Entry<K>>): real
  {
    Sum(es, EntryTotal)
  }

  /** `map.get(k) || 0`: the total under `k`, or zero for a missing key. */
  function TotalAt<K(==)>(es: seq<Entry<K>>, k: K): real
  {
    if es == [] then 0.0
    else if es[0].key == k then es[0].total
    else TotalAt(es[1..], k)
  }

  /** The sum of `f` over the records whose key is `k`: what a group's total
      should be. */
  function SumFor<T, K(==)>(s: seq<T>, key: T -> K, f: T -> real, k: K): real
  {
    if s == [] then 0.0
    else (if key(s[0]) == k then f(s[0]) else 0.0) + SumFor(s[1..], key, f, k)
  }

  lemma {:induction false} TotalAtEntry<K>(es: seq<Entry<K>>, i: nat)
    requires Distinct(KeysOf(es)) && i < |es|
    ensures TotalAt(es, es[i].key) == es[i].total
    decreases i
  {
    if i > 0 {
      assert KeysOf(es)[0] != KeysOf(es)[i];
      assert KeysOf(es[1..]) == KeysOf(es)[1..];
      TotalAtEntry(es[1..], i - 1);
    }
  }

  lemma TotalOfCons<K>(e: Entry<K>, es: seq<Entry<K>>)
    ensures TotalOf([e] + es) == e.total + TotalOf(es)
  {
    assert ([e] + es)[1..] == es;
  }

  /** One `map.set(k, (map.get(k) || 0) + v)`: an existing key keeps its
      place and grows by `v`, a new key is appended with total `v`. */
  function AddTo<K(==)>(es: seq<Entry<K>>, k: K, v: real): (r: seq<Entry<K>>)
    ensures k in KeysOf(es) ==> KeysOf(r) == KeysOf(es)
    ensures k !in KeysOf(es) ==> r == es + [Entry(k, v)]
    ensures forall i :: 0 <= i < |es| && es[i].key != k ==> r[i] == es[i]
    ensures TotalOf(r) == TotalOf(es) + v
  {
    if es == [] then
      TotalOfCons(Entry(k, v), es);
      assert [Entry(k, v)] + es == [Entry(k, v)];
      [Entry(k, v)]
    else if es[0].key == k then
      assert es == [es[0]] + es[1..];
      TotalOfCons(es[0], es[1..]);
      TotalOfCons(Entry(k, es[0].total + v), es[1..]);
      [Entry(k, es[0].total + v)] + es[1..]
    else
      assert es == [es[0]] + es[1..];
      assert KeysOf(es) == [es[0].key] + KeysOf(es[1..]);
      var t := AddTo(es[1..], k, v);
      var r := [es[0]] + t;
      assert KeysOf(r) == [es[0].key] + KeysOf(t);
      TotalOfCons(es[0], es[1..]);
      TotalOfCons(es[0], t);
      assert k !in KeysOf(es) ==> r == es + [Entry(k, v)];
      r
  }

  /** After adding `v` under `k`, the total under any key `x` grew by `v`
      exactly when `x` is `k`. */
  lemma {:induction false} AddToTotalAt<K>(es: seq<Entry<K>>, k: K, v: real, x: K)
    ensures TotalAt(AddTo(es, k, v), x) == TotalAt(es, x) + (if x == k then v else 0.0)
    decreases |es|
  {
    if es == [] {
    } else if es[0].key != k {
      AddToTotalAt(es[1..], k, v, x);
    }
  }

  lemma AddToKeys<K>(es: seq<Entry<K>>, k: K, v: real)
    requires Distinct(KeysOf(es))
    ensures Distinct(KeysOf(AddTo(es, k, v)))
    ensures k in KeysOf(AddTo(es, k, v))
    ensures forall x :: x in KeysOf(AddTo(es, k, v)) <==> x in KeysOf(es) || x == k
  {
    if k !in KeysOf(es) {
      var r := AddTo(es, k, v);
      assert KeysOf(r) == KeysOf(es) + [k];
    }
  }

  /** `s.forEach(r => map.set(key(r), (map.get(key(r)) || 0) + f(r)))`
      starting from the map `es`. */
  function Accumulate<T, K(==)>(es: seq<Entry<K>>, s: seq<T>, key: T -> K, f: T -> real): (r: seq<Entry<K>>)
    ensures TotalOf(r) == TotalOf(es) + Sum(s, f)
    decreases |s|
  {
    if s == [] then es else Accumulate(AddTo(es, key(s[0]), f(s[0])), s[1..], key, f)
  }

  /** Accumulating keeps keys distinct, keeps every key already present, and
      adds exactly the keys of the records. */
  lemma {:induction false} AccumulateKeys<T, K>(es: seq<Entry<K>>, s: seq<T>, key: T -> K, f: T -> real)
    requires Distinct(KeysOf(es))
    ensures Distinct(KeysOf(Accumulate(es, s, key, f)))
    ensures forall x :: x in KeysOf(Accumulate(es, s, key, f)) <==> x in KeysOf(es) || x in Map(s, key)
    ensures forall i :: 0 <= i < |s| ==> key(s[i]) in KeysOf(Accumulate(es, s, key, f))
    decreases |s|
  {
    if s != [] {
      var next := AddTo(es, key(s[0]), f(s[0]));
      AddToKeys(es, key(s[0]), f(s[0]));
      AccumulateKeys(next, s[1..], key, f);
      assert Map(s, key) == [key(s[0])] + Map(s[1..], key);
      forall i | 0 <= i < |s| ensures key(s[i]) in KeysOf(Accumulate(es, s, key, f)) {
        assert Map(s, key)[i] == key(s[i]);
      }
    }
  }

  /** After accumulating, the total under each key is what was there plus the
      sum over the records with that key. */
  lemma {:induction false} AccumulateTotals<T, K>(es: seq<Entry<K>>, s: seq<T>, key: T -> K, f: T -> real, x: K)
    ensures TotalAt(Accumulate(es, s, key, f), x) == TotalAt(es, x) + SumFor(s, key, f, x)
    decreases |s|
  {
    if s != [] {
      var next := AddTo(es, key(s[0]), f(s[0]));
      AddToTotalAt(es, key(s[0]), f(s[0]), x);
      AccumulateTotals(next, s[1..], key, f, x);
    }
  }

  /** The entries of the map built from empty over `s`: one entry per
      distinct key, holding the sum of `f` over the records with that key,
      and nothing lost or invented overall. */
  function Group<T, K(==)>(s: seq<T>, key: T -> K, f: T -> real): (r: seq<Entry<K>>)
    ensures Distinct(KeysOf(r))
    ensures forall i :: 0 <= i < |s| ==> key(s[i]) in KeysOf(r)
    ensures forall i :: 0 <= i < |r| ==> r[i].key in Map(s, key)
    ensures forall i :: 0 <= i < |r| ==> r[i].total == SumFor(s, key, f, r[i].key)
    ensures TotalOf(r) == Sum(s, f)
  {
    var empty: seq<Entry<K>> := [];
    var r := Accumulate(empty, s, key, f);
    AccumulateKeys(empty, s, key, f);
    assert TotalOf(empty) == 0.0;
    assert KeysOf(empty) == [];
    forall i | 0 <= i < |r| ensures r[i].key in Map(s, key) {
      assert KeysOf(r)[i] == r[i].key;
      assert r[i].key in KeysOf(r);
    }
    forall i | 0 <= i < |r| ensures r[i].total == SumFor(s, key, f, r[i].key) {
      TotalAtEntry(r, i);
      AccumulateTotals(empty, s, key, f, r[i].key);
    }
    r
  }

  // ---- ordering by a numeric rank

  /** Ascending by `rank`, so `(a, b) => rank(a) - rank(b)` never asks for a
      swap. */
  predicate SortedBy<T>(s: seq<T>, rank: T -> real)
  {
    forall i, j :: 0 <= i < j < |s| ==> rank(s[i]) <= rank(s[j])
  }

  /** Places `x` before the first element ranked at or above it. */
  function InsertBy<T(==)>(x: T, s: seq<T>, rank: T -> real): (r: seq<T>)
    ensures |r| == |s| + 1
  {
    if s == [] then [x]
    else if rank(x) <= rank(s[0]) then [x] + s
    else [s[0]] + InsertBy(x, s[1..], rank)
  }

  /** Inserting adds `x` and loses nothing. */
  lemma {:induction false} InsertByPermutes<T>(x: T, s: seq<T>, rank: T -> real)
    ensures multiset(InsertBy(x, s, rank)) == multiset(s) + multiset{x}
    decreases |s|
  {
    if s != [] && rank(x) > rank(s[0]) {
      InsertByPermutes(x, s[1..], rank);
      assert s == [s[0]] + s[1..];
    }
  }

  /** Every element of `InsertBy(x, s)` is ranked at least `lo` when `x`
      and all of `s` are. */
  lemma {:induction false} InsertByLowerBound<T>(x: T, s: seq<T>, rank: T -> real, lo: real)
    requires rank(x) >= lo
    requires forall i :: 0 <= i < |s| ==> rank(s[i]) >= lo
    ensures forall i :: 0 <= i < |InsertBy(x, s, rank)| ==> rank(InsertBy(x, s, rank)[i]) >= lo
    decreases |s|
  {
    if s != [] && rank(x) > rank(s[0]) {
      InsertByLowerBound(x, s[1..], rank, lo);
      var t := InsertBy(x, s[1..], rank);
      assert InsertBy(x, s, rank) == [s[0]] + t;
    }
  }

  lemma {:induction false} InsertBySorted<T>(x: T, s: seq<T>, rank: T -> real)
    requires SortedBy(s, rank)
    ensures SortedBy(InsertBy(x, s, rank), rank)
    decreases |s|
  {
    if s != [] && rank(x) > rank(s[0]) {
      var t := InsertBy(x, s[1..], rank);
      InsertBySorted(x, s[1..], rank);
      InsertByLowerBound(x, s[1..], rank, rank(s[0]));
      var r := [s[0]] + t;
      forall i, j | 0 <= i < j < |r| ensures rank(r[i]) <= rank(r[j]) {
        assert r[j] == t[j - 1];
        if i > 0 {
          assert r[i] == t[i - 1];
        }
      }
    }
  }

  /** The sort the charts apply: a permutation of `s`, ascending by `rank`. */
  function SortBy<T(==)>(s: seq<T>, rank: T -> real): (r: seq<T>)
    ensures SortedBy(r, rank)
    ensures multiset(r) == multiset(s)
    ensures |r| == |s|
  {
    if s == [] then []
    else
      assert s == [s[0]] + s[1..];
      InsertBySorted(s[0], SortBy(s[1..], rank), rank);
      InsertByPermutes(s[0], SortBy(s[1..], rank), rank);
      InsertBy(s[0], SortBy(s[1..], rank), rank)
  }

  lemma {:induction false} SumInsertBy<T>(x: T, s: seq<T>, rank: T -> real, f: T -> real)
    ensures Sum(InsertBy(x, s, rank), f) == f(x) + Sum(s, f)
    decreases |s|
  {
    if s != [] && rank(x) > rank(s[0]) {
      SumInsertBy(x, s[1..], rank, f);
      var t := InsertBy(x, s[1..], rank);
      assert ([s[0]] + t)[1..] == t;
    } else if s != [] {
      assert ([x] + s)[1..] == s;
    }
  }

  /** Sorting keeps every sum over the list, the chart's overall total among
      them. */
  lemma {:induction false} SumSortBy<T>(s: seq<T>, rank: T -> real, f: T -> real)
    ensures Sum(SortBy(s, rank), f) == Sum(s, f)
    decreases |s|
  {
    if s != [] {
      SumSortBy(s[1..], rank, f);
      SumInsertBy(s[0], SortBy(s[1..], rank), rank, f);
    }
  }

  /** A sorted list holds exactly the elements of the list it sorts. */
  lemma SortByMembers<T>(s: seq<T>, rank: T -> real)
    ensures forall i :: 0 <= i < |s| ==> s[i] in SortBy(s, rank)
    ensures forall i :: 0 <= i < |SortBy(s, rank)| ==> SortBy(s, rank)[i] in s
  {
    var r := SortBy(s, rank);
    forall i | 0 <= i < |r| ensures r[i] in s {
      assert r[i] in multiset(r);
    }
    forall i | 0 <= i < |s| ensures s[i] in r {
      assert s[i] in multiset(s);
    }
  }

  /** Every key after inserting `x` is `x`'s key or one of `s`. */
  lemma {:induction false} InsertByKeys<K>(x: Entry<K>, s: seq<Entry<K>>, rank: Entry<K> -> real)
    ensures forall k :: 0 <= k < |InsertBy(x, s, rank)| ==>
      InsertBy(x, s, rank)[k].key == x.key || InsertBy(x, s, rank)[k].key in KeysOf(s)
    decreases |s|
  {
    var r := InsertBy(x, s, rank);
    if s != [] && rank(x) > rank(s[0]) {
      var t := InsertBy(x, s[1..], rank);
      InsertByKeys(x, s[1..], rank);
      assert r == [s[0]] + t;
      assert KeysOf(s) == [s[0].key] + KeysOf(s[1..]);
      forall k | 0 <= k < |r| ensures r[k].key == x.key || r[k].key in KeysOf(s) {
        if k > 0 {
          assert r[k] == t[k - 1];
        }
      }
    } else if s != [] {
      assert r == [x] + s;
      forall k | 0 <= k < |r| ensures r[k].key == x.key || r[k].key in KeysOf(s) {
        if k > 0 {
          assert r[k].key == KeysOf(s)[k - 1];
        }
      }
    }
  }

  /** Inserting an entry whose key is new keeps the keys distinct. */
  lemma {:induction false} InsertByDistinctKeys<K>(x: Entry<K>, s: seq<Entry<K>>, rank: Entry<K> -> real)
    requires Distinct(KeysOf(s)) && x.key !in KeysOf(s)
    ensures Distinct(KeysOf(InsertBy(x, s, rank)))
    decreases |s|
  {
    if s != [] && rank(x) > rank(s[0]) {
      var t := InsertBy(x, s[1..], rank);
      var tail := KeysOf(s[1..]);
      assert tail == KeysOf(s)[1..];
      InsertByDistinctKeys(x, s[1..], rank);
      InsertByKeys(x, s[1..], rank);
      assert s[0].key !in tail by {
        forall m | 0 <= m < |tail| ensures tail[m] != s[0].key {
          assert KeysOf(s)[m + 1] != KeysOf(s)[0];
        }
      }
      assert x.key != s[0].key by {
        assert KeysOf(s)[0] == s[0].key;
      }
      var r := [s[0]] + t;
      assert InsertBy(x, s, rank) == r;
      forall i, j | 0 <= i < j < |r| ensures KeysOf(r)[i] != KeysOf(r)[j] {
        assert r[j] == t[j - 1];
        if i > 0 {
          assert r[i] == t[i - 1];
          assert KeysOf(t)[i - 1] != KeysOf(t)[j - 1];
        }
      }
    } else if s != [] {
      var r := [x] + s;
      forall i, j | 0 <= i < j < |r| ensures KeysOf(r)[i] != KeysOf(r)[j] {
        assert r[j] == s[j - 1];
        assert KeysOf(s)[j - 1] == r[j].key;
        if i > 0 {
          assert r[i] == s[i - 1];
        }
      }
    }
  }

  /** Sorting entries with distinct keys keeps the keys distinct. */
  lemma {:induction false} SortByDistinctKeys<K>(s: seq<Entry<K>>, rank: Entry<K> -> real)
    requires Distinct(KeysOf(s))
    ensures Distinct(KeysOf(SortBy(s, rank)))
    decreases |s|
  {
    if s != [] {
      assert KeysOf(s[1..]) == KeysOf(s)[1..];
      SortByDistinctKeys(s[1..], rank);
      var t := SortBy(s[1..], rank);
      SortByMembers(s[1..], rank);
      InsertByDistinctKeys(s[0], t, rank);
    }
  }

  /** Reordering entries keeps the key set and the per-key totals. */
  lemma PermutationKeys<K>(a: seq<Entry<K>>, b: seq<Entry<K>>)
    requires multiset(a) == multiset(b)
    ensures forall i :: 0 <= i < |b| ==> b[i] in a
    ensures forall i :: 0 <= i < |a| ==> a[i] in b
  {
    forall i | 0 <= i < |b| ensures b[i] in a {
      assert b[i] in multiset(b);
    }
    forall i | 0 <= i < |a| ensures a[i] in b {
      assert a[i] in multiset(a);
    }
  }

  /** `entries.map(([k, total]) => ({ label: nameOf(k), value: total }))` */
  function ToPoints<K>(es: seq<Entry<K>>, nameOf: K -> string): (r: seq<ChartPoint>)
    ensures |r| == |es|
    ensures forall i :: 0 <= i < |es| ==> r[i] == ChartPoint(nameOf(es[i].key), es[i].total)
  {
    if es == [] then [] else [ChartPoint(nameOf(es[0].key), es[0].total)] + ToPoints(es[1..], nameOf)
  }

  /** Turning entries into points keeps the overall total. */
  lemma {:induction false} ToPointsTotal<K>(es: seq<Entry<K>>, nameOf: K -> string)
    ensures Sum(ToPoints(es, nameOf), PointValue) == TotalOf(es)
    decreases |es|
  {
    if es != [] {
      ToPointsTotal(es[1..], nameOf);
      assert ToPoints(es, nameOf)[1..] == ToPoints(es[1..], nameOf);
    }
  }

  /** Largest total first: ascending by the negated total, which is what
      `(a, b) => b.value - a.value` asks for. */
  function LargestFirst<K>(e: Entry<K>): real { -e.total }

  /** Records whose key is `k`. */
  function KeyIs<T, K(==)>(key: T -> K, k: K): T -> bool
  {
    (x: T) => key(x) == k
  }

  /** The total under a key is the sum over the records carrying that key. */
  lemma {:induction false} SumForIsFilteredSum<T, K>(s: seq<T>, key: T -> K, f: T -> real, k: K)
    ensures Sum(Filter(s, KeyIs(key, k)), f) == SumFor(s, key, f, k)
    decreases |s|
  {
    if s != [] {
      SumForIsFilteredSum(s[1..], key, f, k);
      if key(s[0]) == k {
        assert Filter(s, KeyIs(key, k)) == [s[0]] + Filter(s[1..], KeyIs(key, k));
        assert Filter(s, KeyIs(key, k))[1..] == Filter(s[1..], KeyIs(key, k));
      }
    }
  }

  /** Reordering entries keeps their keys. */
  lemma EntryKeysCarry<K>(groups: seq<Entry<K>>, sorted: seq<Entry<K>>)
    requires forall i :: 0 <= i < |groups| ==> groups[i] in sorted
    ensures forall k :: k in KeysOf(groups) ==> k in KeysOf(sorted)
  {
    forall k | k in KeysOf(groups) ensures k in KeysOf(sorted) {
      var i :| 0 <= i < |groups| && KeysOf(groups)[i] == k;
      var j :| 0 <= j < |sorted| && sorted[j] == groups[i];
      assert KeysOf(sorted)[j] == k;
    }
  }

  /** The groups of `s` under `key`, ordered by `rank`: the grouping
      guarantees survive the reordering. */
  function GroupSorted<T, K(==)>(s: seq<T>, key: T -> K, f: T -> real, rank: Entry<K> -> real): (r: seq<Entry<K>>)
    ensures Distinct(KeysOf(r))
    ensures forall i :: 0 <= i < |s| ==> key(s[i]) in KeysOf(r)
    ensures forall i :: 0 <= i < |r| ==> r[i].key in Map(s, key)
    ensures forall i :: 0 <= i < |r| ==> r[i].total == SumFor(s, key, f, r[i].key)
    ensures SortedBy(r, rank)
    ensures TotalOf(r) == Sum(s, f)
  {
    var groups := Group(s, key, f);
    var r := SortBy(groups, rank);
    SortByDistinctKeys(groups, rank);
    SortByMembers(groups, rank);
    SumSortBy(groups, rank, EntryTotal);
    EntryKeysCarry(groups, r);
    r
  }
}
