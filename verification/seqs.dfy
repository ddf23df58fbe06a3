/**
 Sequence helpers shared by the model: duplicate-freedom, order-preserving
 filtering (Python list comprehensions with an `if`), and first-occurrence
 de-duplication (the key order of a Python dict filled from a list).
 */
module Seqs {

  /** No element occurs twice. */
  predicate NoDup<T(==,!new)>(s: seq<T>) {
    forall i, j :: 0 <= i < j < |s| ==> s[i] != s[j]
  }

  /** `[x for x in s if f(x)]`: the elements of `s` satisfying `f`, in order. */
  function Filter<T(!new)>(s: seq<T>, f: T -> bool): (r: seq<T>)
    ensures |r| <= |s|
    ensures forall x :: x in r <==> x in s && f(x)
    ensures forall i :: 0 <= i < |r| ==> f(r[i])
  {
    if s == [] then []
    else if f(s[0]) then [s[0]] + Filter(s[1..], f)
    else Filter(s[1..], f)
  }

  lemma {:induction false} FilterNoDup<T(!new)>(s: seq<T>, f: T -> bool)
    requires NoDup(s)
    ensures NoDup(Filter(s, f))
  {
    if s != [] {
      FilterNoDup(s[1..], f);
      var r := Filter(s[1..], f);
      assert s[0] !in s[1..] by {
        forall k | 0 <= k < |s[1..]| ensures s[1..][k] != s[0] {
          assert s[1..][k] == s[k + 1];
        }
      }
      assert s[0] !in r;
    }
  }

  /** Filtering a concatenation filters each part. */
  lemma {:induction false} FilterAppend<T(!new)>(a: seq<T>, b: seq<T>, f: T -> bool)
    ensures Filter(a + b, f) == Filter(a, f) + Filter(b, f)
  {
    if a == [] {
      assert a + b == b;
    } else {
      assert (a + b)[0] == a[0];
      assert (a + b)[1..] == a[1..] + b;
      FilterAppend(a[1..], b, f);
    }
  }

  /**
   The elements kept and the elements dropped by a filter together account
   for the whole sequence.
   */
  lemma {:induction false} FilterSplitLength<T(!new)>(s: seq<T>, f: T -> bool, g: T -> bool)
    requires forall x :: x in s ==> g(x) == !f(x)
    ensures |Filter(s, f)| + |Filter(s, g)| == |s|
  {
    if s != [] {
      assert forall x :: x in s[1..] ==> x in s;
      FilterSplitLength(s[1..], f, g);
    }
  }

  /** Two predicates that agree on `s` select the same elements of `s`. */
  lemma {:induction false} FilterCongruent<T(!new)>(s: seq<T>, f: T -> bool, g: T -> bool)
    requires forall x :: x in s ==> f(x) == g(x)
    ensures Filter(s, f) == Filter(s, g)
  {
    if s != [] {
      assert forall x :: x in s[1..] ==> x in s;
      FilterCongruent(s[1..], f, g);
    }
  }

  /** The tail of a duplicate-free sequence is duplicate-free and lacks the head. */
  lemma NoDupTail<T(!new)>(s: seq<T>)
    requires NoDup(s) && s != []
    ensures NoDup(s[1..]) && s[0] !in s[1..]
  {
    var t := s[1..];
    forall i, j | 0 <= i < j < |t| ensures t[i] != t[j] {
      assert t[i] == s[i + 1] && t[j] == s[j + 1];
    }
    forall i | 0 <= i < |t| ensures t[i] != s[0] {
      assert t[i] == s[i + 1];
    }
  }

  /**
   If `g` is `f` with the first `k` selected elements struck out, filtering
   by `g` drops exactly those `k` elements from the front: the greedy pod
   fill relies on this to see its eligible list shrink by one block of four.
   */
  lemma {:induction false} FilterDropFront<T(!new)>(s: seq<T>, f: T -> bool, g: T -> bool, k: nat)
    requires NoDup(s)
    requires k <= |Filter(s, f)|
    requires forall x :: x in s ==> g(x) == (f(x) && x !in Filter(s, f)[..k])
    ensures Filter(s, g) == Filter(s, f)[k..]
    decreases |s|, 2
  {
    if s != [] {
      var t := s[1..];
      NoDupTail(s);
      if f(s[0]) {
        DropFrontSelected(s, f, g, k);
      } else {
        assert Filter(s, f) == Filter(t, f);
        assert Filter(s, g) == Filter(t, g);
        forall x | x in t ensures g(x) == (f(x) && x !in Filter(t, f)[..k]) {
          assert x in s;
        }
        FilterDropFront(t, f, g, k);
      }
    }
  }

  /** The step of FilterDropFront where the head of `s` is selected by `f`. */
  lemma {:induction false} DropFrontSelected<T(!new)>(s: seq<T>, f: T -> bool, g: T -> bool, k: nat)
    requires s != [] && f(s[0])
    requires NoDup(s[1..]) && s[0] !in s[1..]
    requires k <= |Filter(s, f)|
    requires forall x :: x in s ==> g(x) == (f(x) && x !in Filter(s, f)[..k])
    ensures Filter(s, g) == Filter(s, f)[k..]
    decreases |s|, 1
  {
    if k == 0 {
      forall x | x in s ensures g(x) == f(x) {
        assert Filter(s, f)[..0] == [];
      }
      FilterCongruent(s, g, f);
    } else {
      DropFrontHead(s, f, g, k);
    }
  }

  /** DropFrontSelected when the head itself is among the elements dropped. */
  lemma {:induction false} DropFrontHead<T(!new)>(s: seq<T>, f: T -> bool, g: T -> bool, k: nat)
    requires s != [] && f(s[0])
    requires NoDup(s[1..]) && s[0] !in s[1..]
    requires 0 < k <= |Filter(s, f)|
    requires forall x :: x in s ==> g(x) == (f(x) && x !in Filter(s, f)[..k])
    ensures Filter(s, g) == Filter(s, f)[k..]
    decreases |s|, 0
  {
    var t := s[1..];
    var r := Filter(s, f);
    DropFrontShift(s, f, g, k);
    assert Filter(s, g) == Filter(t, g);
    FilterDropFront(t, f, g, k - 1);
    DropCons(s[0], Filter(t, f), k);
  }

  /** Past a selected head, the dropped prefix of the tail is one shorter. */
  lemma DropFrontShift<T(!new)>(s: seq<T>, f: T -> bool, g: T -> bool, k: nat)
    requires s != [] && f(s[0])
    requires s[0] !in s[1..]
    requires 0 < k <= |Filter(s, f)|
    requires forall x :: x in s ==> g(x) == (f(x) && x !in Filter(s, f)[..k])
    ensures Filter(s, f) == [s[0]] + Filter(s[1..], f)
    ensures !g(s[0])
    ensures forall x :: x in s[1..] ==> g(x) == (f(x) && x !in Filter(s[1..], f)[..k - 1])
  {
    var t := s[1..];
    var r := Filter(s, f);
    assert r == [s[0]] + Filter(t, f);
    assert r[..k] == [s[0]] + Filter(t, f)[..k - 1];
    assert r[..k][0] == s[0];
    forall x | x in t
      ensures g(x) == (f(x) && x !in Filter(t, f)[..k - 1])
    {
      assert x in s && x != s[0];
    }
  }

  /** A duplicate-free sequence drawn from a set is no longer than the set. */
  lemma {:induction false} NoDupLengthBound<T(!new)>(s: seq<T>, m: set<T>)
    requires NoDup(s)
    requires forall x :: x in s ==> x in m
    ensures |s| <= |m|
  {
    if s != [] {
      var t := s[1..];
      NoDupTail(s);
      assert forall x :: x in t ==> x in m - {s[0]};
      NoDupLengthBound(t, m - {s[0]});
    }
  }

  /** A duplicate-free sequence has as many elements as its set of elements. */
  lemma {:induction false} NoDupCardinality<T(!new)>(s: seq<T>)
    requires NoDup(s)
    ensures |set x | x in s| == |s|
  {
    if s != [] {
      var t := s[1..];
      NoDupTail(s);
      NoDupCardinality(t);
      assert (set x | x in s) == (set x | x in t) + {s[0]};
    }
  }

  /** Filtering a duplicate-free sequence keeps as many elements as the set they form. */
  lemma FilterCount<T(!new)>(s: seq<T>, f: T -> bool, m: set<T>)
    requires NoDup(s)
    requires forall x :: x in m <==> x in s && f(x)
    ensures |Filter(s, f)| == |m|
  {
    var r := Filter(s, f);
    FilterNoDup(s, f);
    NoDupCardinality(r);
    assert (set x | x in r) == m;
  }

  /**
   `seen` extended, in order, by the elements of `s` not seen before: the key
   order of a dict whose keys are inserted from `s` after those in `seen`.
   */
  function DedupInto<T(==,!new)>(seen: seq<T>, s: seq<T>): (r: seq<T>)
    decreases |s|
    ensures forall x :: x in r <==> x in seen || x in s
    ensures NoDup(seen) ==> NoDup(r)
    ensures |seen| <= |r|
    ensures r[..|seen|] == seen
  {
    if s == [] then seen
    else if s[0] in seen then DedupInto(seen, s[1..])
    else
      var next := seen + [s[0]];
      assert next[..|seen|] == seen;
      assert forall x :: x in next <==> x in seen || x == s[0];
      var r := DedupInto(next, s[1..]);
      assert r[..|seen|] == r[..|next|][..|seen|];
      r
  }

  /** First occurrences of the elements of `s`, in order. */
  function Dedup<T(==,!new)>(s: seq<T>): (r: seq<T>)
    ensures NoDup(r)
    ensures forall x :: x in r <==> x in s
  {
    DedupInto([], s)
  }

  /** On a sequence that has no duplicates, de-duplication changes nothing. */
  lemma {:induction false} DedupIntoNoDup<T(!new)>(seen: seq<T>, s: seq<T>)
    requires NoDup(seen + s)
    ensures DedupInto(seen, s) == seen + s
    decreases |s|
  {
    if s != [] {
      var u := seen + s;
      assert s[0] == u[|seen|];
      assert s[0] !in seen by {
        forall i | 0 <= i < |seen| ensures seen[i] != s[0] {
          assert seen[i] == u[i];
        }
      }
      assert seen + [s[0]] + s[1..] == u;
      DedupIntoNoDup(seen + [s[0]], s[1..]);
    }
  }

  lemma DedupNoDup<T(!new)>(s: seq<T>)
    requires NoDup(s)
    ensures Dedup(s) == s
  {
    assert [] + s == s;
    DedupIntoNoDup([], s);
  }

  /** Values already seen add nothing. */
  lemma {:induction false} DedupIntoSeen<T(!new)>(seen: seq<T>, s: seq<T>)
    requires forall x :: x in s ==> x in seen
    ensures DedupInto(seen, s) == seen
    decreases |s|
  {
    if s != [] {
      assert s[0] in s;
      DedupIntoSeen(seen, s[1..]);
    }
  }

  /** De-duplicating the concatenation of two sequences is de-duplicating in two steps. */
  lemma {:induction false} DedupIntoAppend<T(!new)>(seen: seq<T>, a: seq<T>, b: seq<T>)
    ensures DedupInto(seen, a + b) == DedupInto(DedupInto(seen, a), b)
    decreases |a|
  {
    if a == [] {
      assert a + b == b;
    } else {
      assert (a + b)[0] == a[0];
      assert (a + b)[1..] == a[1..] + b;
      if a[0] in seen {
        DedupIntoAppend(seen, a[1..], b);
      } else {
        DedupIntoAppend(seen + [a[0]], a[1..], b);
      }
    }
  }

  /** A prefix of a prefix is a prefix. */
  lemma PrefixOfPrefix<T>(s: seq<T>, m: nat, n: nat)
    requires n <= m <= |s|
    ensures s[..m][..n] == s[..n]
  {
  }

  /** Dropping `a` elements and then `b` more drops `a + b`. */
  lemma DropDrop<T>(s: seq<T>, a: nat, b: nat)
    requires a + b <= |s|
    ensures s[a..][b..] == s[a + b..]
  {
  }

  /** Dropping `k > 0` elements of `[x] + u` drops `k - 1` of `u`. */
  lemma DropCons<T>(x: T, u: seq<T>, k: nat)
    requires 0 < k <= |u| + 1
    ensures ([x] + u)[k..] == u[k - 1..]
  {
  }

  /** Concatenation is associative. */
  lemma ConcatRegroup<T>(a: seq<T>, b: seq<T>, c: seq<T>)
    ensures (a + b) + c == a + (b + c)
  {
  }

  /** A sequence of length one is its element. */
  lemma Singleton<T>(s: seq<T>)
    requires |s| == 1
    ensures s == [s[0]]
  {
  }

  /** Regrouping a concatenation around one element. */
  lemma ConsRegroup<T>(a: seq<T>, x: T, b: seq<T>)
    ensures (a + [x]) + b == a + ([x] + b)
  {
  }

  /** Joining two duplicate-free sequences with no element in common gives a duplicate-free sequence. */
  lemma NoDupAppend<T(!new)>(a: seq<T>, b: seq<T>)
    requires NoDup(a) && NoDup(b)
    requires forall x :: x in a ==> x !in b
    ensures NoDup(a + b)
  {
    var s := a + b;
    forall i, j | 0 <= i < j < |s| ensures s[i] != s[j] {
      if j < |a| {
        assert s[i] == a[i] && s[j] == a[j];
      } else if i >= |a| {
        assert s[i] == b[i - |a|] && s[j] == b[j - |a|];
      } else {
        assert s[i] == a[i] && s[j] == b[j - |a|];
        assert a[i] in a && b[j - |a|] in b;
      }
    }
  }

  /** The two halves of a duplicate-free sequence are duplicate-free and share nothing. */
  lemma NoDupSplit<T(!new)>(a: seq<T>, b: seq<T>)
    requires NoDup(a + b)
    ensures NoDup(a) && NoDup(b)
    ensures forall x :: x in a ==> x !in b
  {
    var s := a + b;
    forall i, j | 0 <= i < j < |a| ensures a[i] != a[j] {
      assert a[i] == s[i] && a[j] == s[j];
    }
    forall i, j | 0 <= i < j < |b| ensures b[i] != b[j] {
      assert b[i] == s[|a| + i] && b[j] == s[|a| + j];
    }
    forall i, j | 0 <= i < |a| && 0 <= j < |b| ensures a[i] != b[j] {
      assert a[i] == s[i] && b[j] == s[|a| + j];
    }
  }

  /** Two distinct elements of `ds` sit at two positions, the lower one first. */
  lemma Positions<T(!new)>(ds: seq<T>, x: T, y: T) returns (lo: nat, hi: nat)
    requires x in ds && y in ds && x != y
    ensures lo < hi < |ds|
    ensures (ds[lo] == x && ds[hi] == y) || (ds[lo] == y && ds[hi] == x)
  {
    var a :| 0 <= a < |ds| && ds[a] == x;
    var b :| 0 <= b < |ds| && ds[b] == y;
    if a < b {
      lo, hi := a, b;
    } else {
      lo, hi := b, a;
    }
  }

  /** Keeping the elements that all pass keeps the whole list. */
  lemma {:induction false} FilterKeepsAll<T(!new)>(s: seq<T>, f: T -> bool)
    requires forall x :: x in s ==> f(x)
    ensures Filter(s, f) == s
  {
    if s != [] {
      assert forall x :: x in s[1..] ==> x in s;
      FilterKeepsAll(s[1..], f);
      assert s == [s[0]] + s[1..];
    }
  }

  /** An element of `s` has a first position in it. */
  lemma {:induction false} FirstPosition<T(!new)>(s: seq<T>, x: T) returns (j: nat)
    requires x in s
    ensures j < |s| && s[j] == x
    ensures forall i :: 0 <= i < j ==> s[i] != x
  {
    if s[0] == x {
      j := 0;
    } else {
      assert x in s[1..];
      var k := FirstPosition(s[1..], x);
      j := k + 1;
    }
  }

  /** A repeat-free list holding `x` and nothing else is `[x]`. */
  lemma OnlyElement<T(!new)>(r: seq<T>, x: T)
    requires NoDup(r) && x in r
    requires forall y :: y in r ==> y == x
    ensures r == [x]
  {
    NoDupLengthBound(r, {x});
    assert r[0] in r;
    assert r == [r[0]];
  }
}
