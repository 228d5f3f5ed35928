/**
 * Mapping over a list and concatenating a list of lists: the shapes of the
 * "append each item's strings in turn" loops of the engine.
 */
module Seqs {
  /** `[f(x) for x in s]`. */
  function Map<A, B>(f: A -> B, s: seq<A>): (r: seq<B>)
    ensures |r| == |s|
    ensures forall i :: 0 <= i < |s| ==> r[i] == f(s[i])
  {
    if |s| == 0 then [] else Map(f, s[..|s| - 1]) + [f(s[|s| - 1])]
  }

  lemma MapAppend<A, B>(f: A -> B, a: seq<A>, b: seq<A>)
    ensures Map(f, a + b) == Map(f, a) + Map(f, b)
  {
    var whole, parts := Map(f, a + b), Map(f, a) + Map(f, b);
    forall i | 0 <= i < |whole| ensures whole[i] == parts[i] {
      if i < |a| {
        assert (a + b)[i] == a[i];
      } else {
        assert (a + b)[i] == b[i - |a|];
      }
    }
  }

  /** `[x for xs in xss for x in xs]`. */
  function Flatten<T>(xss: seq<seq<T>>): seq<T> {
    if |xss| == 0 then [] else Flatten(xss[..|xss| - 1]) + xss[|xss| - 1]
  }

  lemma FlattenSnoc<T>(xss: seq<seq<T>>, ys: seq<T>)
    ensures Flatten(xss + [ys]) == Flatten(xss) + ys
  {
    assert (xss + [ys])[..|xss|] == xss;
  }

  lemma {:induction false} FlattenAppend<T>(a: seq<seq<T>>, b: seq<seq<T>>)
    ensures Flatten(a + b) == Flatten(a) + Flatten(b)
    decreases |b|
  {
    if |b| == 0 {
      assert a + b == a;
    } else {
      var n := |b| - 1;
      assert a + b == (a + b[..n]) + [b[n]];
      assert b == b[..n] + [b[n]];
      FlattenSnoc(a + b[..n], b[n]);
      FlattenSnoc(b[..n], b[n]);
      FlattenAppend(a, b[..n]);
    }
  }

  /** An element of one of the lists is in the concatenation. */
  lemma {:induction false} InFlatten<T>(xss: seq<seq<T>>, i: nat, x: T)
    requires i < |xss| && x in xss[i]
    ensures x in Flatten(xss)
  {
    var n := |xss| - 1;
    if i < n {
      assert xss[..n][i] == xss[i];
      InFlatten(xss[..n], i, x);
    }
  }

  /** An element of the concatenation comes from one of the lists. */
  lemma {:induction false} FlattenSource<T>(xss: seq<seq<T>>, x: T)
    requires x in Flatten(xss)
    ensures exists i :: 0 <= i < |xss| && x in xss[i]
  {
    var n := |xss| - 1;
    if x !in xss[n] {
      FlattenSource(xss[..n], x);
      var i :| 0 <= i < n && x in xss[..n][i];
      assert xss[..n][i] == xss[i];
    }
  }

  lemma FlattenMembership<T>(xss: seq<seq<T>>, x: T)
    ensures x in Flatten(xss) <==> exists i :: 0 <= i < |xss| && x in xss[i]
  {
    if x in Flatten(xss) {
      FlattenSource(xss, x);
    }
    if exists i :: 0 <= i < |xss| && x in xss[i] {
      var i :| 0 <= i < |xss| && x in xss[i];
      InFlatten(xss, i, x);
    }
  }

  /** Non-empty lists give at least one element each; singletons exactly one. */
  lemma {:induction false} FlattenCount<T>(xss: seq<seq<T>>)
    ensures (forall i :: 0 <= i < |xss| ==> |xss[i]| >= 1) ==> |Flatten(xss)| >= |xss|
    ensures (forall i :: 0 <= i < |xss| ==> |xss[i]| == 1) ==> |Flatten(xss)| == |xss|
  {
    if |xss| > 0 {
      var n := |xss| - 1;
      FlattenCount(xss[..n]);
      assert forall i :: 0 <= i < n ==> xss[..n][i] == xss[i];
    }
  }
}
