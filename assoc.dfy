/**
 * PHP arrays with keys, as ordered lists of key/value entries. A PHP
 * array keeps its keys in insertion order; `$a[$k] = $v` overwrites the
 * value of an existing key in place and appends a new key at the end.
 */
module Assoc {
  import opened Wrappers

  /** The value stored under `k` (the first entry with that key). */
  function Lookup<K(==), V>(p: seq<(K, V)>, k: K): Option<V>
  {
    if p == [] then None
    else if p[0].0 == k then Some(p[0].1)
    else Lookup(p[1..], k)
  }

  /** The keys of `p`, in order. */
  function Keys<K, V>(p: seq<(K, V)>): (ks: seq<K>)
    ensures |ks| == |p| && forall i :: 0 <= i < |p| ==> ks[i] == p[i].0
  {
    if p == [] then [] else [p[0].0] + Keys(p[1..])
  }

  predicate UniqueKeys<K(==), V>(p: seq<(K, V)>)
  {
    forall i, j :: 0 <= i < j < |p| ==> p[i].0 != p[j].0
  }

  /** `$p[$k] = $v`. */
  function Put<K(==), V>(p: seq<(K, V)>, k: K, v: V): seq<(K, V)>
  {
    if p == [] then [(k, v)]
    else if p[0].0 == k then [(k, v)] + p[1..]
    else [p[0]] + Put(p[1..], k, v)
  }

  /** The value that applying the entries of `q` one after another leaves for `k`: the last one. */
  function Latest<K(==), V>(q: seq<(K, V)>, k: K): Option<V>
  {
    if q == [] then None
    else if q[|q| - 1].0 == k then Some(q[|q| - 1].1)
    else Latest(q[..|q| - 1], k)
  }

  /** `foreach ($q as $k => $v) { $p[$k] = $v; }` */
  function Overlay<K(==), V>(p: seq<(K, V)>, q: seq<(K, V)>): seq<(K, V)>
  {
    if q == [] then p
    else Put(Overlay(p, q[..|q| - 1]), q[|q| - 1].0, q[|q| - 1].1)
  }

  /** The same loop when the target is a map: the values it leaves, without the order of its keys. */
  function Apply<K, V>(m: map<K, V>, q: seq<(K, V)>): map<K, V>
  {
    if q == [] then m
    else Apply(m, q[..|q| - 1])[q[|q| - 1].0 := q[|q| - 1].1]
  }

  /** After `$p[$k] = $v`, `$k` holds `$v` and every other key keeps its value. */
  lemma {:induction false} PutLookup<K, V>(p: seq<(K, V)>, k: K, v: V, k': K)
    ensures Lookup(Put(p, k, v), k') == if k' == k then Some(v) else Lookup(p, k')
  {
    if p != [] && p[0].0 != k {
      PutLookup(p[1..], k, v, k');
    }
  }

  /**
   * `$p[$k] = $v` keeps the position of every existing key and appends a
   * new key at the end.
   */
  lemma {:induction false} PutKeys<K, V>(p: seq<(K, V)>, k: K, v: V)
    ensures Lookup(p, k).Some? ==> Keys(Put(p, k, v)) == Keys(p)
    ensures Lookup(p, k).None? ==> Keys(Put(p, k, v)) == Keys(p) + [k]
  {
    if p != [] && p[0].0 != k {
      PutKeys(p[1..], k, v);
      assert Keys(Put(p, k, v)) == [p[0].0] + Keys(Put(p[1..], k, v));
      assert Keys(p) == [p[0].0] + Keys(p[1..]);
    }
  }

  /** A key that some entry carries can be looked up. */
  lemma {:induction false} LookupFound<K, V>(p: seq<(K, V)>, i: nat)
    requires i < |p|
    ensures Lookup(p, p[i].0).Some?
  {
    if i > 0 && p[0].0 != p[i].0 {
      LookupFound(p[1..], i - 1);
    }
  }

  /** A found value is stored in `p` under its key. */
  lemma {:induction false} LookupIndex<K, V>(p: seq<(K, V)>, k: K) returns (i: nat)
    requires Lookup(p, k).Some?
    ensures i < |p| && p[i] == (k, Lookup(p, k).value)
  {
    if p[0].0 == k {
      i := 0;
    } else {
      var j := LookupIndex(p[1..], k);
      i := j + 1;
    }
  }

  /** A key stored nowhere in `p` is not found. */
  lemma {:induction false} LookupAbsent<K, V>(p: seq<(K, V)>, k: K)
    requires forall i :: 0 <= i < |p| ==> p[i].0 != k
    ensures Lookup(p, k).None?
  {
    if p != [] {
      LookupAbsent(p[1..], k);
    }
  }

  /** Setting a key never repeats it: `Put` overwrites a key already present. */
  lemma {:induction false} PutUnique<K, V>(p: seq<(K, V)>, k: K, v: V)
    requires UniqueKeys(p)
    ensures UniqueKeys(Put(p, k, v))
  {
    PutKeys(p, k, v);
    var r := Put(p, k, v);
    forall i, j | 0 <= i < j < |r| ensures r[i].0 != r[j].0 {
      assert Keys(r)[i] == r[i].0 && Keys(r)[j] == r[j].0;
      if Lookup(p, k).None? && j == |p| {
        if p[i].0 == k { LookupFound(p, i); }
      }
    }
  }

  /**
   * The overlay loop: a key that `q` sets takes the last value `q` gives
   * it (later entries win); every other key keeps its value in `p`.
   */
  lemma {:induction false} OverlayLookup<K, V>(p: seq<(K, V)>, q: seq<(K, V)>, k: K)
    ensures Lookup(Overlay(p, q), k) == if Latest(q, k).Some? then Latest(q, k) else Lookup(p, k)
  {
    if q != [] {
      var last := q[|q| - 1];
      OverlayLookup(p, q[..|q| - 1], k);
      PutLookup(Overlay(p, q[..|q| - 1]), last.0, last.1, k);
    }
  }

  /** The overlay loop keeps the keys of `p` first, in their order. */
  lemma {:induction false} OverlayKeepsOrder<K, V>(p: seq<(K, V)>, q: seq<(K, V)>)
    ensures |Overlay(p, q)| >= |p|
    ensures Keys(Overlay(p, q))[..|p|] == Keys(p)
  {
    if q != [] {
      var last := q[|q| - 1];
      var o := Overlay(p, q[..|q| - 1]);
      OverlayKeepsOrder(p, q[..|q| - 1]);
      PutKeys(o, last.0, last.1);
      assert Keys(Put(o, last.0, last.1))[..|p|] == Keys(o)[..|p|];
    }
  }

  /** The overlay loop never repeats a key: a list without repeated keys stays so. */
  lemma {:induction false} OverlayUnique<K, V>(p: seq<(K, V)>, q: seq<(K, V)>)
    requires UniqueKeys(p)
    ensures UniqueKeys(Overlay(p, q))
  {
    if q != [] {
      var last := q[|q| - 1];
      OverlayUnique(p, q[..|q| - 1]);
      PutUnique(Overlay(p, q[..|q| - 1]), last.0, last.1);
    }
  }

  /** Entries of `q` applied after those of `p` win. */
  lemma {:induction false} LatestAppend<K, V>(p: seq<(K, V)>, q: seq<(K, V)>, k: K)
    ensures Latest(p + q, k) == if Latest(q, k).Some? then Latest(q, k) else Latest(p, k)
  {
    if q == [] {
      assert p + q == p;
    } else {
      assert (p + q)[..|p + q| - 1] == p + q[..|q| - 1];
      LatestAppend(p, q[..|q| - 1], k);
    }
  }

  /** An entry that no later entry overrides gives the last value of its key. */
  lemma {:induction false} LatestFound<K, V>(q: seq<(K, V)>, i: nat)
    requires i < |q|
    requires forall j :: i < j < |q| ==> q[j].0 != q[i].0
    ensures Latest(q, q[i].0) == Some(q[i].1)
  {
    if i < |q| - 1 {
      LatestFound(q[..|q| - 1], i);
    }
  }

  /** A key that no entry carries has no last value. */
  lemma {:induction false} LatestAbsent<K, V>(q: seq<(K, V)>, k: K)
    requires forall i :: 0 <= i < |q| ==> q[i].0 != k
    ensures Latest(q, k).None?
  {
    if q != [] {
      LatestAbsent(q[..|q| - 1], k);
    }
  }

  /**
   * Applying entries to a map: a key the entries set holds the last value
   * they give it, every other key is as before, and no key disappears.
   */
  lemma {:induction false} ApplyLookup<K, V>(m: map<K, V>, q: seq<(K, V)>, k: K)
    ensures k in Apply(m, q) <==> k in m || Latest(q, k).Some?
    ensures Latest(q, k).Some? ==> Apply(m, q)[k] == Latest(q, k).value
    ensures Latest(q, k).None? && k in m ==> Apply(m, q)[k] == m[k]
  {
    if q != [] {
      ApplyLookup(m, q[..|q| - 1], k);
    }
  }
}
