/**
 * Insertion-ordered dictionaries, the way Python 3.7+ `dict` behaves:
 * a sequence of key/value pairs in which assigning to a key already present
 * replaces its value in place, and assigning to a new key appends it.
 */
module AssocLists {
  import opened Wrappers

  type Assoc<K, V> = seq<(K, V)>

  /** The keys in insertion order. */
  function Keys<K, V>(a: Assoc<K, V>): (ks: seq<K>)
    ensures |ks| == |a|
    ensures forall i :: 0 <= i < |a| ==> ks[i] == a[i].0
  {
    if |a| == 0 then [] else [a[0].0] + Keys(a[1..])
  }

  /** `d.get(k)`: the value stored under `k`, if any. */
  function Get<K(==), V>(a: Assoc<K, V>, k: K): Option<V> {
    if |a| == 0 then None
    else if a[0].0 == k then Some(a[0].1)
    else Get(a[1..], k)
  }

  /** A lookup succeeds exactly for the listed keys, and finds a stored pair. */
  lemma {:induction false} GetSpec<K, V>(a: Assoc<K, V>, k: K)
    ensures Get(a, k).Some? <==> k in Keys(a)
    ensures Get(a, k).Some? ==> (k, Get(a, k).value) in a
  {
    if |a| > 0 && a[0].0 != k {
      GetSpec(a[1..], k);
      assert Keys(a) == [a[0].0] + Keys(a[1..]);
    }
  }

  /** `k in d`. */
  predicate HasKey<K(==), V>(a: Assoc<K, V>, k: K) {
    Get(a, k).Some?
  }

  /** No key occurs twice. */
  predicate DistinctKeys<K(==), V>(a: Assoc<K, V>) {
    forall i, j :: 0 <= i < j < |a| ==> a[i].0 != a[j].0
  }

  /** `d[k] = v`. */
  function Put<K(==,!new), V>(a: Assoc<K, V>, k: K, v: V): (r: Assoc<K, V>)
    ensures Get(r, k) == Some(v)
    ensures forall j :: j != k ==> Get(r, j) == Get(a, j)
  {
    if |a| == 0 then [(k, v)]
    else
      ConsFacts(a[0], a[1..]);
      assert [a[0]] + a[1..] == a;
      if a[0].0 == k then
        ConsFacts((k, v), a[1..]);
        [(k, v)] + a[1..]
      else
        var rest := Put(a[1..], k, v);
        ConsFacts(a[0], rest);
        [a[0]] + rest
  }

  /** Assigning to a present key keeps the key order; a new key goes last. */
  lemma {:induction false} PutKeys<K(!new), V>(a: Assoc<K, V>, k: K, v: V)
    ensures Keys(Put(a, k, v)) == if k in Keys(a) then Keys(a) else Keys(a) + [k]
  {
    if |a| > 0 {
      ConsFacts(a[0], a[1..]);
      assert [a[0]] + a[1..] == a;
      if a[0].0 == k {
        ConsFacts((k, v), a[1..]);
      } else {
        PutKeys(a[1..], k, v);
        ConsFacts(a[0], Put(a[1..], k, v));
      }
    }
  }

  /** How the keys and the lookups of a list depend on its first pair. */
  lemma ConsFacts<K, V>(x: (K, V), rest: Assoc<K, V>)
    ensures Keys([x] + rest) == [x.0] + Keys(rest)
    ensures forall j :: Get([x] + rest, j) == if x.0 == j then Some(x.1) else Get(rest, j)
  {
    assert ([x] + rest)[1..] == rest;
  }

  /** After `d[k] = v` the keys are those before, plus `k`. */
  lemma PutHasKey<K(!new), V>(a: Assoc<K, V>, k: K, v: V, j: K)
    ensures HasKey(Put(a, k, v), j) <==> j == k || HasKey(a, j)
  {
  }

  /** Every pair after `d[k] = v` is the new one or was already there. */
  lemma {:induction false} PutPairs<K(!new), V>(a: Assoc<K, V>, k: K, v: V)
    ensures forall p :: p in Put(a, k, v) ==> p == (k, v) || p in a
  {
    if |a| > 0 && a[0].0 != k {
      PutPairs(a[1..], k, v);
      assert Put(a, k, v) == [a[0]] + Put(a[1..], k, v);
    }
  }

  /** Assignment never creates a duplicate key. */
  lemma PutDistinct<K(!new), V>(a: Assoc<K, V>, k: K, v: V)
    requires DistinctKeys(a)
    ensures DistinctKeys(Put(a, k, v))
  {
    var r := Put(a, k, v);
    var ka, kr := Keys(a), Keys(r);
    PutKeys(a, k, v);
    forall i, j | 0 <= i < j < |r| ensures r[i].0 != r[j].0 {
      assert kr[i] == r[i].0 && kr[j] == r[j].0;
      if k !in ka {
        assert |kr| == |ka| + 1;
        if j < |ka| { assert ka[i] == a[i].0 && ka[j] == a[j].0; }
        else { assert kr[j] == k; assert kr[i] == ka[i]; }
      } else {
        assert ka[i] == a[i].0 && ka[j] == a[j].0;
      }
    }
  }

  /**
   * `for x in xs: if keep(x): d[key(x)] = val(x)`, starting from `a`: the
   * shape of the loops that fill the services and the environment mappings.
   */
  function PutAll<X, K(==,!new), V>(a: Assoc<K, V>, xs: seq<X>, keep: X -> bool, key: X -> K, val: X -> V): Assoc<K, V> {
    if |xs| == 0 then a
    else
      var acc := PutAll(a, xs[..|xs| - 1], keep, key, val);
      var x := xs[|xs| - 1];
      if keep(x) then Put(acc, key(x), val(x)) else acc
  }

  lemma PutAllStep<X, K(!new), V>(a: Assoc<K, V>, xs: seq<X>, keep: X -> bool, key: X -> K, val: X -> V)
    requires |xs| > 0
    ensures var n := |xs| - 1;
      PutAll(a, xs, keep, key, val) ==
        if keep(xs[n]) then Put(PutAll(a, xs[..n], keep, key, val), key(xs[n]), val(xs[n]))
        else PutAll(a, xs[..n], keep, key, val)
  {
  }

  /** A key present at the start stays present. */
  lemma {:induction false} PutAllKeeps<X, K(!new), V>(a: Assoc<K, V>, xs: seq<X>, keep: X -> bool, key: X -> K, val: X -> V, k: K)
    requires HasKey(a, k)
    ensures HasKey(PutAll(a, xs, keep, key, val), k)
  {
    if |xs| > 0 {
      var n := |xs| - 1;
      PutAllKeeps(a, xs[..n], keep, key, val, k);
      PutAllStep(a, xs, keep, key, val);
      if keep(xs[n]) {
        PutHasKey(PutAll(a, xs[..n], keep, key, val), key(xs[n]), val(xs[n]), k);
      }
    }
  }

  /** Every kept item's key is present. */
  lemma {:induction false} PutAllHas<X, K(!new), V>(a: Assoc<K, V>, xs: seq<X>, keep: X -> bool, key: X -> K, val: X -> V, i: nat)
    requires i < |xs| && keep(xs[i])
    ensures HasKey(PutAll(a, xs, keep, key, val), key(xs[i]))
  {
    var n := |xs| - 1;
    PutAllStep(a, xs, keep, key, val);
    if i < n {
      assert xs[..n][i] == xs[i];
      PutAllHas(a, xs[..n], keep, key, val, i);
    }
    if keep(xs[n]) {
      PutHasKey(PutAll(a, xs[..n], keep, key, val), key(xs[n]), val(xs[n]), key(xs[i]));
    }
  }

  /** A key that was not present at the start is the key of a kept item. */
  lemma {:induction false} PutAllSource<X, K(!new), V>(a: Assoc<K, V>, xs: seq<X>, keep: X -> bool, key: X -> K, val: X -> V, k: K)
    requires HasKey(PutAll(a, xs, keep, key, val), k) && !HasKey(a, k)
    ensures exists i :: 0 <= i < |xs| && keep(xs[i]) && key(xs[i]) == k
  {
    var n := |xs| - 1;
    PutAllStep(a, xs, keep, key, val);
    if !(keep(xs[n]) && key(xs[n]) == k) {
      if keep(xs[n]) {
        PutHasKey(PutAll(a, xs[..n], keep, key, val), key(xs[n]), val(xs[n]), k);
      }
      PutAllSource(a, xs[..n], keep, key, val, k);
      var i :| 0 <= i < n && keep(xs[..n][i]) && key(xs[..n][i]) == k;
      assert xs[..n][i] == xs[i];
    }
  }

  lemma PutAllPresence<X, K(!new), V>(a: Assoc<K, V>, xs: seq<X>, keep: X -> bool, key: X -> K, val: X -> V, k: K)
    ensures HasKey(PutAll(a, xs, keep, key, val), k) <==>
      HasKey(a, k) || exists i :: 0 <= i < |xs| && keep(xs[i]) && key(xs[i]) == k
  {
    if HasKey(a, k) {
      PutAllKeeps(a, xs, keep, key, val, k);
    } else if HasKey(PutAll(a, xs, keep, key, val), k) {
      PutAllSource(a, xs, keep, key, val, k);
    }
    if exists i :: 0 <= i < |xs| && keep(xs[i]) && key(xs[i]) == k {
      var i :| 0 <= i < |xs| && keep(xs[i]) && key(xs[i]) == k;
      PutAllHas(a, xs, keep, key, val, i);
    }
  }

  /** Last wins: a key holds the value of the last kept item with that key. */
  lemma {:induction false} PutAllLastWins<X, K(!new), V>(a: Assoc<K, V>, xs: seq<X>, keep: X -> bool, key: X -> K, val: X -> V, i: nat)
    requires i < |xs| && keep(xs[i])
    requires forall j :: i < j < |xs| ==> !(keep(xs[j]) && key(xs[j]) == key(xs[i]))
    ensures Get(PutAll(a, xs, keep, key, val), key(xs[i])) == Some(val(xs[i]))
  {
    var n := |xs| - 1;
    PutAllStep(a, xs, keep, key, val);
    if i < n {
      assert xs[..n][i] == xs[i];
      forall j | i < j < n ensures !(keep(xs[..n][j]) && key(xs[..n][j]) == key(xs[..n][i])) {
        assert xs[..n][j] == xs[j];
      }
      PutAllLastWins(a, xs[..n], keep, key, val, i);
    }
  }

  /** Filling never duplicates a key. */
  lemma {:induction false} PutAllDistinct<X, K(!new), V>(a: Assoc<K, V>, xs: seq<X>, keep: X -> bool, key: X -> K, val: X -> V)
    requires DistinctKeys(a)
    ensures DistinctKeys(PutAll(a, xs, keep, key, val))
  {
    if |xs| > 0 {
      var n := |xs| - 1;
      PutAllDistinct(a, xs[..n], keep, key, val);
      PutAllStep(a, xs, keep, key, val);
      if keep(xs[n]) {
        PutDistinct(PutAll(a, xs[..n], keep, key, val), key(xs[n]), val(xs[n]));
      }
    }
  }

  /** A property of every value at the start and of every kept item's value holds of every value. */
  lemma {:induction false} PutAllValues<X, K(!new), V>(a: Assoc<K, V>, xs: seq<X>, keep: X -> bool, key: X -> K, val: X -> V, p: V -> bool)
    requires forall q :: q in a ==> p(q.1)
    requires forall i :: 0 <= i < |xs| && keep(xs[i]) ==> p(val(xs[i]))
    ensures forall q :: q in PutAll(a, xs, keep, key, val) ==> p(q.1)
  {
    if |xs| > 0 {
      var n := |xs| - 1;
      forall i | 0 <= i < n && keep(xs[..n][i]) ensures p(val(xs[..n][i])) {
        assert xs[..n][i] == xs[i];
      }
      PutAllValues(a, xs[..n], keep, key, val, p);
      PutAllStep(a, xs, keep, key, val);
      if keep(xs[n]) {
        PutPairs(PutAll(a, xs[..n], keep, key, val), key(xs[n]), val(xs[n]));
      }
    }
  }
}
