/** Generic sequence vocabulary shared by every screen: order-preserving
    subsequences, filtering, removal of a value, first-occurrence
    de-duplication (JavaScript's `Array.from(new Set(xs))`) and sums of a
    numeric field (`reduce((sum, x) => sum + f(x), 0)`). */
module Seqs {
  import opened Wrappers

  /** `a` can be obtained from `b` by deleting elements: the order of what is
      kept is the order in `b`. */
  predicate IsSubsequence<T(==)>(a: seq<T>, b: seq<T>)
    decreases |b|
  {
    if a == [] then true
    else if b == [] then false
    else (a[0] == b[0] && IsSubsequence(a[1..], b[1..])) || IsSubsequence(a, b[1..])
  }

  lemma {:induction false} SubsequenceMembers<T>(a: seq<T>, b: seq<T>)
    requires IsSubsequence(a, b)
    ensures forall x :: x in a ==> x in b
    ensures |a| <= |b|
    decreases |b|
  {
    if a != [] {
      if a[0] == b[0] && IsSubsequence(a[1..], b[1..]) {
        SubsequenceMembers(a[1..], b[1..]);
        forall x | x in a ensures x in b {
          if x != a[0] { assert x in a[1..]; }
        }
      } else {
        SubsequenceMembers(a, b[1..]);
      }
    }
  }

  lemma {:induction false} SubsequenceRefl<T>(s: seq<T>)
    ensures IsSubsequence(s, s)
    decreases |s|
  {
    if s != [] {
      SubsequenceRefl(s[1..]);
    }
  }

  /** Any prefix of `s` is a subsequence of `s`. */
  lemma {:induction false} PrefixIsSubsequence<T>(s: seq<T>, n: nat)
    requires n <= |s|
    ensures IsSubsequence(s[..n], s)
    decreases |s|
  {
    if n > 0 {
      PrefixIsSubsequence(s[1..], n - 1);
      assert s[..n][1..] == s[1..][..n - 1];
    }
  }

  /** `Array.prototype.map` */
  function Map<T, U>(s: seq<T>, f: T -> U): (r: seq<U>)
    ensures |r| == |s|
    ensures forall i :: 0 <= i < |s| ==> r[i] == f(s[i])
  {
    if s == [] then [] else [f(s[0])] + Map(s[1..], f)
  }

  /** `Array.prototype.filter`: the elements satisfying `p`, in order. */
  function Filter<T>(s: seq<T>, p: T -> bool): (r: seq<T>)
    ensures IsSubsequence(r, s)
    ensures forall i :: 0 <= i < |r| ==> r[i] in s && p(r[i])
    ensures forall i :: 0 <= i < |s| && p(s[i]) ==> s[i] in r
    ensures |r| <= |s|
  {
    if s == [] then []
    else if p(s[0]) then [s[0]] + Filter(s[1..], p)
    else Filter(s[1..], p)
  }

  /** Filtering with a predicate every element satisfies changes nothing. */
  lemma {:induction false} FilterAll<T>(s: seq<T>, p: T -> bool)
    requires forall i :: 0 <= i < |s| ==> p(s[i])
    ensures Filter(s, p) == s
    decreases |s|
  {
    if s != [] {
      FilterAll(s[1..], p);
    }
  }

  /** `reduce((sum, x) => sum + f(x), 0)` */
  function Sum<T>(s: seq<T>, f: T -> real): real
  {
    if s == [] then 0.0 else f(s[0]) + Sum(s[1..], f)
  }

  lemma {:induction false} SumAppend<T>(a: seq<T>, b: seq<T>, f: T -> real)
    ensures Sum(a + b, f) == Sum(a, f) + Sum(b, f)
    decreases |a|
  {
    if a == [] {
      assert a + b == b;
    } else {
      assert (a + b)[0] == a[0];
      assert (a + b)[1..] == a[1..] + b;
      SumAppend(a[1..], b, f);
    }
  }

  /** A sum splits into the part `p` admits and the part `q` admits when the
      two predicates are complementary. */
  lemma {:induction false} SumPartition<T>(s: seq<T>, p: T -> bool, q: T -> bool, f: T -> real)
    requires forall x :: q(x) == !p(x)
    ensures Sum(s, f) == Sum(Filter(s, p), f) + Sum(Filter(s, q), f)
    decreases |s|
  {
    if s != [] {
      SumPartition(s[1..], p, q, f);
    }
  }

  /** Sums over the same elements agree when the summed fields agree. */
  lemma {:induction false} SumPointwise<T>(s: seq<T>, f: T -> real, g: T -> real)
    requires forall i :: 0 <= i < |s| ==> f(s[i]) == g(s[i])
    ensures Sum(s, f) == Sum(s, g)
    decreases |s|
  {
    if s != [] {
      SumPointwise(s[1..], f, g);
    }
  }

  /** `xs.filter(v => v !== x)`: every occurrence of `x` removed. */
  function Without<T(==)>(s: seq<T>, x: T): (r: seq<T>)
    ensures IsSubsequence(r, s)
    ensures forall i :: 0 <= i < |r| ==> r[i] in s && r[i] != x
    ensures forall i :: 0 <= i < |s| && s[i] != x ==> s[i] in r
    ensures x !in s ==> r == s
  {
    if s == [] then []
    else if s[0] == x then Without(s[1..], x)
    else [s[0]] + Without(s[1..], x)
  }

  /** `Array.prototype.slice(0, n)` */
  function Take<T>(s: seq<T>, n: nat): (r: seq<T>)
    ensures |r| == if n < |s| then n else |s|
    ensures IsSubsequence(r, s)
    ensures forall i :: 0 <= i < |r| ==> r[i] == s[i]
  {
    var k := if n < |s| then n else |s|;
    PrefixIsSubsequence(s, k);
    s[..k]
  }

  predicate Distinct<T(==)>(s: seq<T>)
  {
    forall i, j :: 0 <= i < j < |s| ==> s[i] != s[j]
  }

  /** The position of the first occurrence of `x`, or `|s|` when absent. */
  function IndexOf<T(==)>(s: seq<T>, x: T): (k: nat)
    ensures k <= |s|
    ensures k < |s| <==> x in s
    ensures k < |s| ==> s[k] == x
    ensures forall i :: 0 <= i < k ==> s[i] != x
  {
    if s == [] then 0
    else if s[0] == x then 0
    else 1 + IndexOf(s[1..], x)
  }

  lemma {:induction false} IndexOfInPrefix<T>(s: seq<T>, n: nat, x: T)
    requires n <= |s|
    requires x in s[..n]
    ensures IndexOf(s, x) == IndexOf(s[..n], x)
    decreases |s|
  {
    if s[0] != x {
      assert s[..n][1..] == s[1..][..n - 1];
      IndexOfInPrefix(s[1..], n - 1, x);
    }
  }

  /** `Array.from(new Set(s))`: the distinct elements of `s`, each kept at
      its first occurrence (the order is stated by `DedupOrder`). */
  function Dedup<T(==)>(s: seq<T>): (r: seq<T>)
    ensures Distinct(r)
    ensures forall i :: 0 <= i < |r| ==> r[i] in s
    ensures forall i :: 0 <= i < |s| ==> s[i] in r
    decreases |s|
  {
    if s == [] then []
    else
      var init := s[..|s| - 1];
      var last := s[|s| - 1];
      var p := Dedup(init);
      assert s == init + [last];
      assert forall i :: 0 <= i < |s| - 1 ==> s[i] == init[i];
      if last in p then p
      else
        var r := p + [last];
        assert forall i :: 0 <= i < |p| ==> r[i] == p[i];
        r
  }

  /** The distinct elements keep the order of their first occurrences. */
  lemma {:induction false} DedupOrder<T>(s: seq<T>)
    ensures forall i, j :: 0 <= i < j < |Dedup(s)| ==> IndexOf(s, Dedup(s)[i]) < IndexOf(s, Dedup(s)[j])
    decreases |s|
  {
    if s != [] {
      var init := s[..|s| - 1];
      var last := s[|s| - 1];
      var p := Dedup(init);
      assert s == init + [last];
      DedupOrder(init);
      DedupOrderExtends(s, init, last, p);
      var r := Dedup(s);
      if last in p {
        assert r == p;
      } else {
        assert r == p + [last];
        forall i, j | 0 <= i < j < |r| ensures IndexOf(s, r[i]) < IndexOf(s, r[j]) {
          assert r[i] == p[i];
          if j < |p| {
            assert r[j] == p[j];
          } else {
            assert r[j] == last;
          }
        }
      }
    }
  }

  /** Helper for `Dedup`: first-occurrence positions in `init` are those in
      `init + [last]`, and a value new to `init` comes after all of them. */
  lemma DedupOrderExtends<T>(s: seq<T>, init: seq<T>, last: T, p: seq<T>)
    requires s == init + [last]
    requires forall i :: 0 <= i < |p| ==> p[i] in init
    requires forall i :: 0 <= i < |init| ==> init[i] in p
    requires forall i, j :: 0 <= i < j < |p| ==> IndexOf(init, p[i]) < IndexOf(init, p[j])
    ensures forall i, j :: 0 <= i < j < |p| ==> IndexOf(s, p[i]) < IndexOf(s, p[j])
    ensures last !in p ==> forall i :: 0 <= i < |p| ==> IndexOf(s, p[i]) < IndexOf(s, last)
  {
    assert s[..|init|] == init;
    forall x | x in init ensures IndexOf(s, x) == IndexOf(init, x) {
      IndexOfInPrefix(s, |init|, x);
    }
    if last !in p {
      assert last !in s[..|init|];
      assert IndexOf(s, last) == |init|;
    }
  }

  /** Removing a value that was appended to a list it was absent from gives
      the list back. */
  lemma {:induction false} WithoutAppended<T>(s: seq<T>, x: T)
    requires x !in s
    ensures Without(s + [x], x) == s
    decreases |s|
  {
    if s == [] {
      assert Without([x], x) == Without([], x);
    } else {
      assert (s + [x])[1..] == s[1..] + [x];
      WithoutAppended(s[1..], x);
    }
  }

  /** Removing a value also removes a copy of it appended at the end. */
  lemma {:induction false} WithoutSnoc<T>(s: seq<T>, x: T)
    ensures Without(s + [x], x) == Without(s, x)
    decreases |s|
  {
    if s == [] {
      assert Without([x], x) == Without([], x);
    } else {
      assert (s + [x])[1..] == s[1..] + [x];
      WithoutSnoc(s[1..], x);
    }
  }

  /** Filtering a list extended by one element extends the filtered list by
      that element exactly when it passes. */
  lemma {:induction false} FilterSnoc<T>(s: seq<T>, x: T, p: T -> bool)
    ensures Filter(s + [x], p) == Filter(s, p) + (if p(x) then [x] else [])
    decreases |s|
  {
    if s == [] {
      assert s + [x] == [x];
      assert [x][1..] == [];
    } else {
      assert (s + [x])[0] == s[0] && (s + [x])[1..] == s[1..] + [x];
      FilterSnoc(s[1..], x, p);
    }
  }

  /** A subsequence of a list whose elements carry strictly increasing
      numbers carries strictly increasing numbers too. */
  lemma {:induction false} SubsequenceIncreasing<T>(a: seq<T>, b: seq<T>, rank: T -> int)
    requires IsSubsequence(a, b)
    requires forall i, j :: 0 <= i < j < |b| ==> rank(b[i]) < rank(b[j])
    ensures forall i, j :: 0 <= i < j < |a| ==> rank(a[i]) < rank(a[j])
    decreases |b|
  {
    if a != [] {
      if a[0] == b[0] && IsSubsequence(a[1..], b[1..]) {
        SubsequenceIncreasing(a[1..], b[1..], rank);
        SubsequenceMembers(a[1..], b[1..]);
        forall j | 0 < j < |a| ensures rank(a[0]) < rank(a[j]) {
          assert a[j] == a[1..][j - 1];
          assert a[j] in b[1..];
          var k :| 0 <= k < |b[1..]| && b[1..][k] == a[j];
          assert b[k + 1] == a[j];
        }
        forall i, j | 0 <= i < j < |a| ensures rank(a[i]) < rank(a[j]) {
          if i > 0 {
            assert a[i] == a[1..][i - 1] && a[j] == a[1..][j - 1];
          }
        }
      } else {
        SubsequenceIncreasing(a, b[1..], rank);
      }
    }
  }

  /** `findIndex`: the position of the first element satisfying `p`, `|s|`
      when there is none. */
  function FindIndex<T>(s: seq<T>, p: T -> bool): (k: nat)
    ensures k <= |s|
    ensures k < |s| ==> p(s[k])
    ensures forall i :: 0 <= i < k ==> !p(s[i])
  {
    if s == [] then 0 else if p(s[0]) then 0 else 1 + FindIndex(s[1..], p)
  }

  /** `find`: the first element satisfying `p`, if any. */
  function Find<T>(s: seq<T>, p: T -> bool): (r: Option<T>)
    ensures r.None? <==> forall i :: 0 <= i < |s| ==> !p(s[i])
    ensures r.Some? ==> FindIndex(s, p) < |s| && r.value == s[FindIndex(s, p)] && p(r.value)
  {
    var k := FindIndex(s, p);
    if k < |s| then Some(s[k]) else None
  }

  /** Both predicates at once. */
  function Both<T>(p: T -> bool, q: T -> bool): T -> bool
  {
    (x: T) => p(x) && q(x)
  }

  /** `p` when `active`, and no restriction otherwise. */
  function When<T>(active: bool, p: T -> bool): T -> bool
  {
    (x: T) => !active || p(x)
  }

  /** Predicates that agree everywhere filter alike. */
  lemma {:induction false} FilterExtensional<T>(s: seq<T>, p: T -> bool, q: T -> bool)
    requires forall x :: p(x) == q(x)
    ensures Filter(s, p) == Filter(s, q)
    decreases |s|
  {
    if s != [] {
      FilterExtensional(s[1..], p, q);
    }
  }

  /** Filtering twice is filtering once by both predicates. */
  lemma {:induction false} FilterFilter<T>(s: seq<T>, p: T -> bool, q: T -> bool)
    ensures Filter(Filter(s, p), q) == Filter(s, Both(p, q))
    decreases |s|
  {
    if s != [] {
      FilterFilter(s[1..], p, q);
      if p(s[0]) {
        assert Filter(s, p) == [s[0]] + Filter(s[1..], p);
        assert Filter(s, p)[1..] == Filter(s[1..], p);
      }
    }
  }

  /** `if (active) rows = rows.filter(p)`: one stage of a filter chain. */
  function Narrow<T>(rows: seq<T>, active: bool, p: T -> bool): (r: seq<T>)
    ensures r == Filter(rows, When(active, p))
  {
    if active then
      FilterExtensional(rows, p, When(active, p));
      Filter(rows, p)
    else
      FilterAll(rows, When(active, p));
      rows
  }
}
