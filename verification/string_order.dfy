/** JavaScript's ordering of strings (`<` on strings, and the default
    comparator of `Array.prototype.sort`): lexicographic by character, a
    proper prefix before its extensions. Also the two list shapes the screens
    build from it: a sorted copy (`[...xs].sort()`) and the sorted distinct
    values (`Array.from(new Set(xs)).sort()`). */
module StringOrder {
  import opened Seqs

  predicate Lt(a: string, b: string)
    decreases |a|
  {
    b != [] && (a == [] || a[0] < b[0] || (a[0] == b[0] && Lt(a[1..], b[1..])))
  }

  predicate Le(a: string, b: string)
  {
    a == b || Lt(a, b)
  }

  lemma {:induction false} LtIrreflexive(a: string)
    ensures !Lt(a, a)
    decreases |a|
  {
    if a != [] {
      LtIrreflexive(a[1..]);
    }
  }

  lemma {:induction false} LtTransitive(a: string, b: string, c: string)
    requires Lt(a, b) && Lt(b, c)
    ensures Lt(a, c)
    decreases |a|
  {
    if a != [] && a[0] == b[0] && b[0] == c[0] {
      LtTransitive(a[1..], b[1..], c[1..]);
    }
  }

  lemma {:induction false} LtTotal(a: string, b: string)
    ensures a == b || Lt(a, b) || Lt(b, a)
    decreases |a|
  {
    if a != [] && b != [] && a[0] == b[0] {
      LtTotal(a[1..], b[1..]);
      if a[1..] == b[1..] {
        assert a == [a[0]] + a[1..] && b == [b[0]] + b[1..];
      }
    }
  }

  lemma {:induction false} LtAsymmetric(a: string, b: string)
    requires Lt(a, b)
    ensures !Lt(b, a) && a != b
    decreases |a|
  {
    if a != [] && a[0] == b[0] {
      LtAsymmetric(a[1..], b[1..]);
    } else if a == b {
      LtIrreflexive(a);
    }
  }

  /** Comparing equal-length heads decides, or defers to the tails. */
  lemma {:induction false} LtConcat(x: string, u: string, y: string, v: string)
    requires |x| == |y|
    ensures Lt(x + u, y + v) <==> Lt(x, y) || (x == y && Lt(u, v))
    decreases |x|
  {
    if x == [] {
      assert x + u == u && y + v == v;
    } else {
      assert (x + u)[1..] == x[1..] + u && (y + v)[1..] == y[1..] + v;
      LtConcat(x[1..], u, y[1..], v);
      if x[0] == y[0] && x[1..] == y[1..] {
        assert x == [x[0]] + x[1..] && y == [y[0]] + y[1..];
      }
    }
  }

  lemma LeTransitive(a: string, b: string, c: string)
    requires Le(a, b) && Le(b, c)
    ensures Le(a, c)
  {
    if a != b && b != c {
      LtTransitive(a, b, c);
    }
  }

  predicate Sorted(s: seq<string>)
  {
    forall i, j :: 0 <= i < j < |s| ==> Le(s[i], s[j])
  }

  predicate StrictlySorted(s: seq<string>)
  {
    forall i, j :: 0 <= i < j < |s| ==> Lt(s[i], s[j])
  }

  /** Inserts `x` before the first element above it. */
  function Insert(x: string, s: seq<string>): (r: seq<string>)
    ensures |r| == |s| + 1
  {
    if s == [] then [x]
    else if Lt(x, s[0]) then [x] + s
    else [s[0]] + Insert(x, s[1..])
  }

  /** Inserting adds `x` and loses nothing. */
  lemma {:induction false} InsertPermutes(x: string, s: seq<string>)
    ensures multiset(Insert(x, s)) == multiset(s) + multiset{x}
    decreases |s|
  {
    if s != [] && !Lt(x, s[0]) {
      InsertPermutes(x, s[1..]);
      assert s == [s[0]] + s[1..];
    }
  }

  /** Every element after inserting `x` is `x` or one of `s`. */
  lemma {:induction false} InsertMembers(x: string, s: seq<string>)
    ensures forall k :: 0 <= k < |Insert(x, s)| ==> Insert(x, s)[k] == x || Insert(x, s)[k] in s
    decreases |s|
  {
    var r := Insert(x, s);
    if s != [] && !Lt(x, s[0]) {
      var t := Insert(x, s[1..]);
      InsertMembers(x, s[1..]);
      assert r == [s[0]] + t;
      forall k | 0 <= k < |r| ensures r[k] == x || r[k] in s {
        if k > 0 {
          assert r[k] == t[k - 1];
        }
      }
    } else if s != [] {
      assert r == [x] + s;
      forall k | 0 <= k < |r| ensures r[k] == x || r[k] in s {
        if k > 0 {
          assert r[k] == s[k - 1];
        }
      }
    }
  }

  lemma InMultiset(x: string, s: seq<string>)
    ensures x in s <==> x in multiset(s)
  {
  }

  lemma {:induction false} InsertSorted(x: string, s: seq<string>)
    requires Sorted(s)
    ensures Sorted(Insert(x, s))
    decreases |s|
  {
    if s == [] {
    } else if Lt(x, s[0]) {
      forall j | 0 < j < |s| ensures Le(x, s[j]) {
        LeTransitive(x, s[0], s[j]);
      }
    } else {
      var t := Insert(x, s[1..]);
      InsertSorted(x, s[1..]);
      InsertMembers(x, s[1..]);
      LtTotal(x, s[0]);
      forall k | 0 <= k < |t| ensures Le(s[0], t[k]) {
        if t[k] != x {
          var m :| 0 <= m < |s[1..]| && s[1..][m] == t[k];
          assert s[m + 1] == t[k];
        }
      }
      var r := [s[0]] + t;
      assert Insert(x, s) == r;
      forall i, j | 0 <= i < j < |r| ensures Le(r[i], r[j]) {
        if i > 0 {
          assert r[i] == t[i - 1] && r[j] == t[j - 1];
        }
      }
    }
  }

  lemma {:induction false} InsertDistinct(x: string, s: seq<string>)
    requires Distinct(s) && x !in s
    ensures Distinct(Insert(x, s))
    decreases |s|
  {
    if s != [] && !Lt(x, s[0]) {
      var t := Insert(x, s[1..]);
      assert Distinct(s[1..]) by {
        forall i, j | 0 <= i < j < |s[1..]| ensures s[1..][i] != s[1..][j] {
          assert s[1..][i] == s[i + 1] && s[1..][j] == s[j + 1];
        }
      }
      InsertDistinct(x, s[1..]);
      InsertMembers(x, s[1..]);
      assert s[0] !in s[1..] by {
        forall m | 0 <= m < |s[1..]| ensures s[1..][m] != s[0] {
          assert s[1..][m] == s[m + 1];
        }
      }
      assert x != s[0];
      var r := [s[0]] + t;
      assert Insert(x, s) == r;
      forall i, j | 0 <= i < j < |r| ensures r[i] != r[j] {
        if i == 0 {
          assert r[j] == t[j - 1];
        } else {
          assert r[i] == t[i - 1] && r[j] == t[j - 1];
        }
      }
    }
  }

  /** `[...s].sort()`: the same strings, in ascending order. */
  function Sort(s: seq<string>): (r: seq<string>)
    ensures Sorted(r)
    ensures multiset(r) == multiset(s)
    ensures |r| == |s|
  {
    if s == [] then []
    else
      assert s == [s[0]] + s[1..];
      InsertSorted(s[0], Sort(s[1..]));
      InsertPermutes(s[0], Sort(s[1..]));
      Insert(s[0], Sort(s[1..]))
  }

  lemma {:induction false} SortDistinct(s: seq<string>)
    requires Distinct(s)
    ensures Distinct(Sort(s))
    decreases |s|
  {
    if s != [] {
      assert Distinct(s[1..]) by {
        forall i, j | 0 <= i < j < |s[1..]| ensures s[1..][i] != s[1..][j] {
          assert s[1..][i] == s[i + 1] && s[1..][j] == s[j + 1];
        }
      }
      SortDistinct(s[1..]);
      InMultiset(s[0], Sort(s[1..]));
      InMultiset(s[0], s[1..]);
      InsertDistinct(s[0], Sort(s[1..]));
    }
  }

  lemma SameElements(a: seq<string>, b: seq<string>)
    requires multiset(a) == multiset(b)
    ensures forall x :: x in a <==> x in b
  {
    forall x ensures x in a <==> x in b {
      assert x in a <==> x in multiset(a);
      assert x in b <==> x in multiset(b);
    }
  }

  /** `Array.from(new Set(s)).sort()`: each distinct string once, ascending. */
  function SortedUnique(s: seq<string>): (r: seq<string>)
    ensures StrictlySorted(r)
    ensures forall x :: x in r <==> x in s
  {
    var d := Dedup(s);
    var r := Sort(d);
    SortDistinct(d);
    SameElements(r, d);
    assert forall i, j :: 0 <= i < j < |r| ==> Lt(r[i], r[j]);
    r
  }

  lemma HeadIsMember(s: seq<string>)
    ensures s != [] ==> s[0] in s
  {
  }

  /** Two ascending lists without repeats that hold the same strings are
      equal. */
  lemma {:induction false} StrictlySortedUnique(a: seq<string>, b: seq<string>)
    requires StrictlySorted(a) && StrictlySorted(b)
    requires forall x :: x in a <==> x in b
    ensures a == b
    decreases |a|
  {
    if a != [] {
      assert a[0] in b;
      assert b != [];
      // the first element of each list is the least of the shared set
      if a[0] != b[0] {
        assert b[0] in a;
        var i :| 0 <= i < |a| && a[i] == b[0];
        var j :| 0 <= j < |b| && b[j] == a[0];
        assert i > 0 && j > 0;
        assert Lt(a[0], b[0]) && Lt(b[0], a[0]);
        LtAsymmetric(a[0], b[0]);
      }
      forall x ensures x in a[1..] <==> x in b[1..] {
        if x in a[1..] {
          var i :| 0 <= i < |a[1..]| && a[1..][i] == x;
          LtAsymmetric(a[0], a[i + 1]);
          assert x in a;
          assert x in b;
          var j :| 0 <= j < |b| && b[j] == x;
          assert j != 0;
          assert b[1..][j - 1] == x;
        }
        if x in b[1..] {
          var j :| 0 <= j < |b[1..]| && b[1..][j] == x;
          LtAsymmetric(b[0], b[j + 1]);
          assert x in b;
          assert x in a;
          var i :| 0 <= i < |a| && a[i] == x;
          assert i != 0;
          assert a[1..][i - 1] == x;
        }
      }
      StrictlySortedUnique(a[1..], b[1..]);
      assert a == [a[0]] + a[1..] && b == [b[0]] + b[1..];
    } else {
      HeadIsMember(b);
    }
  }

  /** Re-sorting and re-de-duplicating a sorted distinct list changes nothing. */
  lemma SortedUniqueIdempotent(s: seq<string>)
    ensures SortedUnique(SortedUnique(s)) == SortedUnique(s)
  {
    StrictlySortedUnique(SortedUnique(SortedUnique(s)), SortedUnique(s));
  }
}
