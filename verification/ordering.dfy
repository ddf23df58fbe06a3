/**
 Python's `sorted(items, key=..., reverse=True)` on keys that are tuples of
 integers: a stable sort into descending key order. Tuples compare
 lexicographically, a proper prefix sorting first; `reverse=True` keeps
 items with equal keys in their original order.
 */
module Ordering {
  import opened Seqs

  /** Python's `a < b` on tuples of integers. */
  predicate LexLess(a: seq<int>, b: seq<int>)
    decreases |a|
  {
    b != [] && (a == [] || a[0] < b[0] || (a[0] == b[0] && LexLess(a[1..], b[1..])))
  }

  lemma {:induction false} LexIrreflexive(a: seq<int>)
    ensures !LexLess(a, a)
    decreases |a|
  {
    if a != [] {
      LexIrreflexive(a[1..]);
    }
  }

  lemma {:induction false} LexTransitive(a: seq<int>, b: seq<int>, c: seq<int>)
    requires LexLess(a, b) && LexLess(b, c)
    ensures LexLess(a, c)
    decreases |a|
  {
    if a != [] && a[0] == b[0] && b[0] == c[0] {
      LexTransitive(a[1..], b[1..], c[1..]);
    }
  }

  lemma {:induction false} LexTotal(a: seq<int>, b: seq<int>)
    ensures a == b || LexLess(a, b) || LexLess(b, a)
    decreases |a|
  {
    if a != [] && b != [] && a[0] == b[0] {
      LexTotal(a[1..], b[1..]);
      if a[1..] == b[1..] {
        assert a == [a[0]] + a[1..] && b == [b[0]] + b[1..];
      }
    }
  }

  /** `a >= b >= c` gives `a >= c`. */
  lemma AtLeastTransitive(a: seq<int>, b: seq<int>, c: seq<int>)
    requires !LexLess(a, b) && !LexLess(b, c)
    ensures !LexLess(a, c)
  {
    if LexLess(a, c) {
      LexTotal(a, b);
      if a == b {
      } else {
        LexTransitive(b, a, c);
      }
    }
  }

  /** `a < b` excludes `b < a`. */
  lemma LexAsymmetric(a: seq<int>, b: seq<int>)
    requires LexLess(a, b)
    ensures !LexLess(b, a)
  {
    if LexLess(b, a) {
      LexTransitive(a, b, a);
      LexIrreflexive(a);
    }
  }

  /** Keys never increase along `s`. */
  predicate SortedDesc<T(!new)>(s: seq<T>, key: T -> seq<int>) {
    forall i, j :: 0 <= i < j < |s| ==> !LexLess(key(s[i]), key(s[j]))
  }

  /** Puts `x` in front of the first element whose key is not above `x`'s. */
  function Insert<T(!new)>(x: T, s: seq<T>, key: T -> seq<int>): (r: seq<T>)
    ensures multiset(r) == multiset(s) + multiset{x}
    ensures |r| == |s| + 1
  {
    if s == [] || !LexLess(key(x), key(s[0])) then [x] + s
    else
      assert s == [s[0]] + s[1..];
      [s[0]] + Insert(x, s[1..], key)
  }

  lemma {:induction false} InsertSorted<T(!new)>(x: T, s: seq<T>, key: T -> seq<int>)
    requires SortedDesc(s, key)
    ensures SortedDesc(Insert(x, s, key), key)
  {
    var r := Insert(x, s, key);
    if s == [] {
    } else if !LexLess(key(x), key(s[0])) {
      forall i, j | 0 <= i < j < |r| ensures !LexLess(key(r[i]), key(r[j])) {
        if i == 0 {
          assert r[j] == s[j - 1];
          if j > 1 {
            AtLeastTransitive(key(x), key(s[0]), key(s[j - 1]));
          }
        } else {
          assert r[i] == s[i - 1] && r[j] == s[j - 1];
        }
      }
    } else {
      var t := s[1..];
      assert SortedDesc(t, key) by {
        forall i, j | 0 <= i < j < |t| ensures !LexLess(key(t[i]), key(t[j])) {
          assert t[i] == s[i + 1] && t[j] == s[j + 1];
        }
      }
      InsertSorted(x, t, key);
      var u := Insert(x, t, key);
      assert r == [s[0]] + u;
      forall j | 0 <= j < |u| ensures !LexLess(key(s[0]), key(u[j])) {
        assert u[j] in multiset(u);
        if u[j] == x {
          LexAsymmetric(key(x), key(s[0]));
        } else {
          assert u[j] in multiset(t);
          var k :| 0 <= k < |t| && t[k] == u[j];
          assert t[k] == s[k + 1];
        }
      }
      forall i, j | 0 <= i < j < |r| ensures !LexLess(key(r[i]), key(r[j])) {
        if i == 0 {
          assert r[j] == u[j - 1];
        } else {
          assert r[i] == u[i - 1] && r[j] == u[j - 1];
        }
      }
    }
  }

  /**
   `sorted(s, key=key, reverse=True)`: the same elements, keys never
   increasing.
   */
  function SortDesc<T(!new)>(s: seq<T>, key: T -> seq<int>): (r: seq<T>)
    ensures multiset(r) == multiset(s)
    ensures |r| == |s|
    ensures SortedDesc(r, key)
  {
    if s == [] then []
    else
      var rest := SortDesc(s[1..], key);
      InsertSorted(s[0], rest, key);
      assert s == [s[0]] + s[1..];
      Insert(s[0], rest, key)
  }

  /** The elements of `s` whose key is `k`, in order. */
  function WithKey<T(!new)>(s: seq<T>, key: T -> seq<int>, k: seq<int>): seq<T> {
    Filter(s, x => key(x) == k)
  }

  lemma {:induction false} InsertWithKey<T(!new)>(x: T, s: seq<T>, key: T -> seq<int>, k: seq<int>)
    ensures WithKey(Insert(x, s, key), key, k) == (if key(x) == k then [x] else []) + WithKey(s, key, k)
  {
    if s == [] || !LexLess(key(x), key(s[0])) {
    } else {
      InsertWithKey(x, s[1..], key, k);
      if key(s[0]) == k && key(x) == k {
        LexIrreflexive(k);
      }
    }
  }

  /**
   The sort is stable: the elements sharing any one key keep their original
   relative order.
   */
  lemma {:induction false} SortStable<T(!new)>(s: seq<T>, key: T -> seq<int>, k: seq<int>)
    ensures WithKey(SortDesc(s, key), key, k) == WithKey(s, key, k)
  {
    if s != [] {
      SortStable(s[1..], key, k);
      InsertWithKey(s[0], SortDesc(s[1..], key), key, k);
    }
  }

  /** Three entries whose last outranks the middle one, and whose first outranks the last, sort as first, last, middle. */
  lemma SortThree<T(!new)>(s: seq<T>, key: T -> seq<int>)
    requires |s| == 3
    requires LexLess(key(s[1]), key(s[2]))
    requires !LexLess(key(s[0]), key(s[2]))
    ensures SortDesc(s, key) == [s[0], s[2], s[1]]
  {
    SortTwo(s[1..], key);
    assert SortDesc(s, key) == Insert(s[0], [s[2], s[1]], key);
  }

  /** Two entries, the second outranking the first, swap places. */
  lemma SortTwo<T(!new)>(s: seq<T>, key: T -> seq<int>)
    requires |s| == 2
    requires LexLess(key(s[0]), key(s[1]))
    ensures SortDesc(s, key) == [s[1], s[0]]
  {
    var one := [s[1]];
    assert s[1..] == one;
    assert SortDesc(one, key) == one by {
      assert one[1..] == [];
    }
    assert Insert(s[0], one, key) == [s[1]] + Insert(s[0], [], key);
  }
}
