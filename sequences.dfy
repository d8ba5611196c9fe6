/**
 * Order-preserving filtering and first-occurrence de-duplication, the two
 * sequence shapes the spotlight script builds with `Array.prototype.filter`
 * and with a JavaScript `Set` (`[...new Set(xs)]`, or a `seen` set inside a
 * filter).
 */
module Sequences {

  /** `r` can be obtained from `s` by deleting elements: same elements, same relative order. */
  predicate Subseq<T(==)>(r: seq<T>, s: seq<T>)
    decreases |s|
  {
    r == [] || (s != [] && ((r[0] == s[0] && Subseq(r[1..], s[1..])) || Subseq(r, s[1..])))
  }

  lemma {:induction false} SubseqTrans<T>(a: seq<T>, b: seq<T>, c: seq<T>)
    requires Subseq(a, b) && Subseq(b, c)
    ensures Subseq(a, c)
    decreases |c|
  {
    if a == [] {
    } else if Subseq(b, c[1..]) {
      SubseqTrans(a, b, c[1..]);
    } else {
      assert b[0] == c[0] && Subseq(b[1..], c[1..]);
      if a[0] == b[0] && Subseq(a[1..], b[1..]) {
        SubseqTrans(a[1..], b[1..], c[1..]);
      } else {
        SubseqTrans(a, b[1..], c[1..]);
      }
    }
  }

  /** The set of keys of the elements of `xs`. */
  function KeySet<T, K>(xs: seq<T>, key: T -> K): set<K> {
    set i | 0 <= i < |xs| :: key(xs[i])
  }

  /** Index of the first element whose key is `k`, or `|xs|` when there is none. */
  function FirstIndex<T, K(==)>(xs: seq<T>, key: T -> K, k: K): (r: nat)
    ensures r <= |xs|
    ensures r < |xs| ==> key(xs[r]) == k
  {
    if xs == [] then 0
    else if key(xs[0]) == k then 0
    else 1 + FirstIndex(xs[1..], key, k)
  }

  /** No element before the first index has the key; none at all when the index is `|xs|`. */
  lemma {:induction false} FirstIndexIsFirst<T, K>(xs: seq<T>, key: T -> K, k: K, j: nat)
    requires j < FirstIndex(xs, key, k)
    ensures key(xs[j]) != k
  {
    if j > 0 {
      FirstIndexIsFirst(xs[1..], key, k, j - 1);
      assert xs[j] == xs[1..][j - 1];
    }
  }

  /**
   * Keeps the first element of each key not already in `seen`, in order: a
   * left-to-right scan that adds every kept key to `seen`, as a JavaScript
   * `Set` does.
   */
  function DedupBy<T, K(==)>(xs: seq<T>, key: T -> K, seen: set<K>): (r: seq<T>)
    ensures forall i :: 0 <= i < |r| ==> r[i] in xs && key(r[i]) !in seen
    ensures forall i, j :: 0 <= i < j < |r| ==> key(r[i]) != key(r[j])
  {
    if xs == [] then []
    else if key(xs[0]) in seen then DedupBy(xs[1..], key, seen)
    else [xs[0]] + DedupBy(xs[1..], key, seen + {key(xs[0])})
  }

  /** Every key of the input that was not seen before appears in the result. */
  lemma {:induction false} DedupByCovers<T, K>(xs: seq<T>, key: T -> K, seen: set<K>)
    ensures KeySet(DedupBy(xs, key, seen), key) == KeySet(xs, key) - seen
  {
    var r := DedupBy(xs, key, seen);
    if xs == [] {
    } else {
      var k := key(xs[0]);
      KeySetCons(xs[0], xs[1..], key);
      assert xs == [xs[0]] + xs[1..];
      if k in seen {
        DedupByCovers(xs[1..], key, seen);
      } else {
        var rest := DedupBy(xs[1..], key, seen + {k});
        DedupByCovers(xs[1..], key, seen + {k});
        assert r == [xs[0]] + rest;
        KeySetCons(xs[0], rest, key);
      }
    }
  }

  lemma KeySetCons<T, K>(x: T, s: seq<T>, key: T -> K)
    ensures KeySet([x] + s, key) == {key(x)} + KeySet(s, key)
  {
    var xs := [x] + s;
    forall y | y in KeySet(xs, key) ensures y in {key(x)} + KeySet(s, key) {
      var j :| 0 <= j < |xs| && key(xs[j]) == y;
      if j > 0 {
        assert xs[j] == s[j - 1];
      }
    }
    forall y | y in KeySet(s, key) ensures y in KeySet(xs, key) {
      var j :| 0 <= j < |s| && key(s[j]) == y;
      assert xs[j + 1] == s[j];
    }
    assert key(x) == key(xs[0]);
  }

  /** The result has exactly one element per unseen key of the input. */
  lemma DedupByCount<T, K>(xs: seq<T>, key: T -> K, seen: set<K>)
    ensures |DedupBy(xs, key, seen)| == |KeySet(xs, key) - seen|
  {
    var r := DedupBy(xs, key, seen);
    DedupByCovers(xs, key, seen);
    KeysDistinctCount(r, key);
  }

  /** A sequence with pairwise distinct keys has as many keys as elements. */
  lemma {:induction false} KeysDistinctCount<T, K>(r: seq<T>, key: T -> K)
    requires forall i, j :: 0 <= i < j < |r| ==> key(r[i]) != key(r[j])
    ensures |KeySet(r, key)| == |r|
  {
    if r != [] {
      KeysDistinctCount(r[1..], key);
      KeySetCons(r[0], r[1..], key);
      assert r == [r[0]] + r[1..];
      assert key(r[0]) !in KeySet(r[1..], key);
    }
  }

  /** The kept element at `i` is the first element of the input with its key. */
  lemma {:induction false} DedupByFirstAt<T, K>(xs: seq<T>, key: T -> K, seen: set<K>, i: nat)
    requires i < |DedupBy(xs, key, seen)|
    ensures FirstIndex(xs, key, key(DedupBy(xs, key, seen)[i])) < |xs|
    ensures xs[FirstIndex(xs, key, key(DedupBy(xs, key, seen)[i]))] == DedupBy(xs, key, seen)[i]
  {
    var r := DedupBy(xs, key, seen);
    var k := key(xs[0]);
    if k in seen {
      DedupByFirstAt(xs[1..], key, seen, i);
      FirstIndexTail(xs, key, key(r[i]));
    } else if i > 0 {
      var rest := DedupBy(xs[1..], key, seen + {k});
      assert r[i] == rest[i - 1];
      DedupByFirstAt(xs[1..], key, seen + {k}, i - 1);
      FirstIndexTail(xs, key, key(r[i]));
    }
  }

  /** Each kept element is the first element of the input with its key. */
  lemma {:induction false} DedupByFirst<T, K>(xs: seq<T>, key: T -> K, seen: set<K>)
    ensures forall x :: x in DedupBy(xs, key, seen) ==>
      FirstIndex(xs, key, key(x)) < |xs| && xs[FirstIndex(xs, key, key(x))] == x
  {
    var r := DedupBy(xs, key, seen);
    forall x | x in r
      ensures FirstIndex(xs, key, key(x)) < |xs| && xs[FirstIndex(xs, key, key(x))] == x
    {
      var i :| 0 <= i < |r| && r[i] == x;
      DedupByFirstAt(xs, key, seen, i);
    }
  }

  /** Kept elements `i < j` have their keys' first occurrences in the same order. */
  lemma {:induction false} DedupByOrderAt<T, K>(xs: seq<T>, key: T -> K, seen: set<K>, i: nat, j: nat)
    requires i < j < |DedupBy(xs, key, seen)|
    ensures FirstIndex(xs, key, key(DedupBy(xs, key, seen)[i])) < FirstIndex(xs, key, key(DedupBy(xs, key, seen)[j]))
  {
    var k := key(xs[0]);
    if k in seen {
      DedupByOrderAt(xs[1..], key, seen, i, j);
      FirstIndexTail(xs, key, key(DedupBy(xs, key, seen)[i]));
      FirstIndexTail(xs, key, key(DedupBy(xs, key, seen)[j]));
    } else {
      var rest := DedupBy(xs[1..], key, seen + {k});
      assert DedupBy(xs, key, seen)[j] == rest[j - 1];
      FirstIndexTail(xs, key, key(rest[j - 1]));
      if i > 0 {
        assert DedupBy(xs, key, seen)[i] == rest[i - 1];
        DedupByOrderAt(xs[1..], key, seen + {k}, i - 1, j - 1);
        FirstIndexTail(xs, key, key(rest[i - 1]));
      }
    }
  }

  /** The kept elements come in the order of their keys' first occurrences in the input. */
  lemma {:induction false} DedupByOrder<T, K>(xs: seq<T>, key: T -> K, seen: set<K>)
    ensures forall i, j :: 0 <= i < j < |DedupBy(xs, key, seen)| ==>
      FirstIndex(xs, key, key(DedupBy(xs, key, seen)[i])) < FirstIndex(xs, key, key(DedupBy(xs, key, seen)[j]))
  {
    forall i, j | 0 <= i < j < |DedupBy(xs, key, seen)|
      ensures FirstIndex(xs, key, key(DedupBy(xs, key, seen)[i])) < FirstIndex(xs, key, key(DedupBy(xs, key, seen)[j]))
    {
      DedupByOrderAt(xs, key, seen, i, j);
    }
  }

  lemma FirstIndexTail<T, K>(xs: seq<T>, key: T -> K, k: K)
    requires xs != [] && key(xs[0]) != k
    ensures FirstIndex(xs, key, k) == 1 + FirstIndex(xs[1..], key, k)
  {
  }

  /** De-duplication only deletes elements. */
  lemma {:induction false} DedupBySubseq<T, K>(xs: seq<T>, key: T -> K, seen: set<K>)
    ensures Subseq(DedupBy(xs, key, seen), xs)
  {
    if xs != [] {
      var k := key(xs[0]);
      if k in seen {
        DedupBySubseq(xs[1..], key, seen);
      } else {
        DedupBySubseq(xs[1..], key, seen + {k});
      }
    }
  }
}
