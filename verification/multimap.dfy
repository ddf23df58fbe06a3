/**
 An ordered multimap: a Python dict from keys to lists, kept as a sequence
 of (key, list) entries in insertion order. The optimizer builds its
 day-to-players index, and rebuilds a player-to-days map from it, by the
 same fold: for every key and every value in its list, append the key under
 the value, creating the value's entry at the end when it is new.
 */
module Multimap {
  import opened Seqs

  type Multimap<K, V> = seq<(K, seq<V>)>

  /** The keys, in insertion order. */
  function KeyList<K(!new), V(!new)>(m: Multimap<K, V>): (r: seq<K>)
    ensures |r| == |m|
    ensures forall i :: 0 <= i < |m| ==> r[i] == m[i].0
  {
    if m == [] then [] else [m[0].0] + KeyList(m[1..])
  }

  /** Keys are unique, as in a dict. */
  predicate DistinctKeys<K(==,!new), V(!new)>(m: Multimap<K, V>) {
    forall i, j :: 0 <= i < j < |m| ==> m[i].0 != m[j].0
  }

  /** `m.get(k, [])`. */
  function Lookup<K(==,!new), V(!new)>(m: Multimap<K, V>, k: K): (r: seq<V>)
    ensures k !in KeyList(m) ==> r == []
  {
    if m == [] then [] else if m[0].0 == k then m[0].1 else Lookup(m[1..], k)
  }

  /** In a dict, the list stored in an entry is the one found under its key. */
  lemma {:induction false} LookupEntry<K(!new), V(!new)>(m: Multimap<K, V>, i: nat)
    requires DistinctKeys(m) && i < |m|
    ensures Lookup(m, m[i].0) == m[i].1
  {
    if i > 0 {
      assert m[0].0 != m[i].0;
      assert m[1..][i - 1] == m[i];
      LookupEntry(m[1..], i - 1);
    }
  }

  /** `m.setdefault(k, []).append(v)`. */
  function Append<K(==,!new), V(!new)>(m: Multimap<K, V>, k: K, v: V): (r: Multimap<K, V>)
    ensures forall x :: Lookup(r, x) == if x == k then Lookup(m, k) + [v] else Lookup(m, x)
    ensures KeyList(r) == if k in KeyList(m) then KeyList(m) else KeyList(m) + [k]
  {
    if m == [] then [(k, [v])]
    else if m[0].0 == k then [(k, m[0].1 + [v])] + m[1..]
    else
      var r := [m[0]] + Append(m[1..], k, v);
      assert r[1..] == Append(m[1..], k, v);
      assert KeyList(m) == [m[0].0] + KeyList(m[1..]);
      r
  }

  /** Appends `v` under each of `ks` in turn. */
  function AppendUnder<K(==,!new), V(!new)>(m: Multimap<K, V>, ks: seq<K>, v: V): (r: Multimap<K, V>)
    ensures NoDup(ks) ==>
      forall x :: Lookup(r, x) == Lookup(m, x) + (if x in ks then [v] else [])
    ensures KeyList(r) == DedupInto(KeyList(m), ks)
    decreases |ks|
  {
    if ks == [] then m
    else
      var r := AppendUnder(Append(m, ks[0], v), ks[1..], v);
      assert NoDup(ks) ==> NoDup(ks[1..]) && ks[0] !in ks[1..] by {
        if NoDup(ks) { NoDupTail(ks); }
      }
      assert forall x :: x in ks <==> x == ks[0] || x in ks[1..];
      r
  }

  /** The values of all entries, concatenated in order. */
  function AllValues<K(!new), V(!new)>(m: Multimap<K, V>): seq<V> {
    if m == [] then [] else m[0].1 + AllValues(m[1..])
  }

  /**
   The keys of `m` whose list holds `v`, in key order: the reference
   definition of the inverted entry for `v`.
   */
  function Holders<K(!new), V(==,!new)>(m: Multimap<K, V>, v: V): (r: seq<K>)
    ensures forall k :: k in r ==> k in KeyList(m)
  {
    if m == [] then []
    else (if v in m[0].1 then [m[0].0] else []) + Holders(m[1..], v)
  }

  /** Every list holds each of its values once. */
  predicate DistinctValues<K(!new), V(==,!new)>(m: Multimap<K, V>) {
    forall i :: 0 <= i < |m| ==> NoDup(m[i].1)
  }

  /** The fold of the inversion, continuing from the partial result `acc`. */
  function InvertInto<K(==,!new), V(==,!new)>(acc: Multimap<V, K>, m: Multimap<K, V>): (r: Multimap<V, K>)
    ensures DistinctValues(m) ==>
      forall v :: Lookup(r, v) == Lookup(acc, v) + Holders(m, v)
    ensures KeyList(r) == DedupInto(KeyList(acc), AllValues(m))
    decreases |m|
  {
    if m == [] then acc
    else
      var next := AppendUnder(acc, m[0].1, m[0].0);
      var r := InvertInto(next, m[1..]);
      DistinctValuesTail(m);
      InvertLookupStep(acc, next, r, m);
      DedupIntoAppend(KeyList(acc), m[0].1, AllValues(m[1..]));
      r
  }

  lemma DistinctValuesTail<K(!new), V(!new)>(m: Multimap<K, V>)
    requires m != []
    ensures DistinctValues(m) ==> DistinctValues(m[1..]) && NoDup(m[0].1)
  {
    if DistinctValues(m) {
      forall i | 0 <= i < |m[1..]| ensures NoDup(m[1..][i].1) {
        assert m[1..][i] == m[i + 1];
      }
    }
  }

  /** One entry of the inversion fold: its key is listed under each of its values. */
  lemma InvertLookupStep<K(!new), V(!new)>(acc: Multimap<V, K>, next: Multimap<V, K>, r: Multimap<V, K>, m: Multimap<K, V>)
    requires m != []
    requires DistinctValues(m) ==> DistinctValues(m[1..]) && NoDup(m[0].1)
    requires NoDup(m[0].1) ==> forall x :: Lookup(next, x) == Lookup(acc, x) + (if x in m[0].1 then [m[0].0] else [])
    requires DistinctValues(m[1..]) ==> forall v :: Lookup(r, v) == Lookup(next, v) + Holders(m[1..], v)
    ensures DistinctValues(m) ==> forall v :: Lookup(r, v) == Lookup(acc, v) + Holders(m, v)
  {
    if DistinctValues(m) {
      forall v ensures Lookup(r, v) == Lookup(acc, v) + Holders(m, v) {
        var mine: seq<K> := if v in m[0].1 then [m[0].0] else [];
        assert Holders(m, v) == mine + Holders(m[1..], v);
        ConcatRegroup(Lookup(acc, v), mine, Holders(m[1..], v));
      }
    }
  }

  /**
   The inverted multimap: every value of `m` becomes a key, listing the keys
   of `m` that hold it, in `m`'s order; the new keys appear in the order
   their first holder listed them.
   */
  function Invert<K(==,!new), V(==,!new)>(m: Multimap<K, V>): (r: Multimap<V, K>)
    ensures NoDup(KeyList(r))
    ensures KeyList(r) == Dedup(AllValues(m))
    ensures forall v :: v in KeyList(r) <==> v in AllValues(m)
    ensures DistinctValues(m) ==> forall v :: Lookup(r, v) == Holders(m, v)
  {
    var r := InvertInto([], m);
    InvertFromEmpty(m, r);
    r
  }

  lemma InvertFromEmpty<K(!new), V(!new)>(m: Multimap<K, V>, r: Multimap<V, K>)
    requires DistinctValues(m) ==> forall v :: Lookup(r, v) == Lookup([], v) + Holders(m, v)
    ensures DistinctValues(m) ==> forall v :: Lookup(r, v) == Holders(m, v)
  {
    if DistinctValues(m) {
      forall v ensures Lookup(r, v) == Holders(m, v) {
        var none: Multimap<V, K> := [];
        assert Lookup(none, v) == [];
        assert [] + Holders(m, v) == Holders(m, v);
      }
    }
  }

  /** A value appears among all values exactly when some list holds it. */
  lemma {:induction false} AllValuesMembership<K(!new), V(!new)>(m: Multimap<K, V>, v: V)
    ensures v in AllValues(m) <==> exists i :: 0 <= i < |m| && v in m[i].1
  {
    if m != [] {
      AllValuesMembership(m[1..], v);
      if v in AllValues(m[1..]) {
        var i :| 0 <= i < |m[1..]| && v in m[1..][i].1;
        assert m[i + 1] == m[1..][i];
      }
      if exists i :: 0 <= i < |m| && v in m[i].1 {
        var i :| 0 <= i < |m| && v in m[i].1;
        if i > 0 { assert m[1..][i - 1] == m[i]; }
      }
    }
  }

  /**
   With unique keys, a key holds `v` exactly when its list contains `v`, and
   the holders of `v` are the key list filtered by that test.
   */
  lemma {:induction false} HoldersFilter<K(!new), V(!new)>(m: Multimap<K, V>, v: V)
    requires DistinctKeys(m)
    ensures Holders(m, v) == Filter(KeyList(m), k => v in Lookup(m, k))
    ensures NoDup(Holders(m, v))
  {
    if m != [] {
      var t := m[1..];
      assert DistinctKeys(t) by {
        forall i, j | 0 <= i < j < |t| ensures t[i].0 != t[j].0 {
          assert t[i] == m[i + 1] && t[j] == m[j + 1];
        }
      }
      HoldersFilter(t, v);
      assert KeyList(m) == [m[0].0] + KeyList(t);
      assert m[0].0 !in KeyList(t) by {
        forall i | 0 <= i < |t| ensures KeyList(t)[i] != m[0].0 {
          assert t[i] == m[i + 1];
        }
      }
      assert Lookup(m, m[0].0) == m[0].1;
      forall k | k in KeyList(t) ensures (v in Lookup(t, k)) == (v in Lookup(m, k)) {
        assert k != m[0].0;
      }
      FilterCongruent(KeyList(t), k => v in Lookup(t, k), k => v in Lookup(m, k));
      FilterNoDup(KeyList(m), k => v in Lookup(m, k));
    }
  }

  /** With unique keys, `k` holds `v` exactly when `v` is in `k`'s list. */
  lemma HoldersMembership<K(!new), V(!new)>(m: Multimap<K, V>, v: V, k: K)
    requires DistinctKeys(m)
    ensures k in Holders(m, v) <==> k in KeyList(m) && v in Lookup(m, k)
  {
    HoldersFilter(m, v);
  }

  /**
   Inverting twice gives back every list up to order: each key lists the same
   values, once each, now in the order the values were first seen.
   */
  lemma InvertTwice<K(!new), V(!new)>(m: Multimap<K, V>, k: K)
    requires DistinctKeys(m) && DistinctValues(m)
    ensures forall v :: v in Lookup(Invert(Invert(m)), k) <==> v in Lookup(m, k)
    ensures NoDup(Lookup(Invert(Invert(m)), k))
  {
    var inv := Invert(m);
    assert DistinctKeys(inv) by {
      forall i, j | 0 <= i < j < |inv| ensures inv[i].0 != inv[j].0 {
        assert KeyList(inv)[i] == inv[i].0 && KeyList(inv)[j] == inv[j].0;
      }
    }
    assert DistinctValues(inv) by {
      forall i | 0 <= i < |inv| ensures NoDup(inv[i].1) {
        LookupEntry(inv, i);
        HoldersFilter(m, inv[i].0);
      }
    }
    HoldersFilter(inv, k);
    forall v ensures v in Lookup(Invert(inv), k) <==> v in Lookup(m, k) {
      HoldersMembership(inv, k, v);
      HoldersMembership(m, v, k);
      if v in Lookup(m, k) {
        assert k in KeyList(m);
        var i :| 0 <= i < |m| && m[i].0 == k;
        LookupEntry(m, i);
        AllValuesMembership(m, v);
      }
    }
  }
}
