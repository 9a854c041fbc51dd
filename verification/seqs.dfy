/** Order-preserving sequence operations shared by the record store:
    filtering, insertion at a position, removal at a position, and
    uniqueness of keys. */
module Seqs {

  /** The elements of `s` that satisfy `p`, in their original order
      (JavaScript's `Array.prototype.filter`). */
  function Filter<T>(s: seq<T>, p: T -> bool): (r: seq<T>)
    ensures |r| <= |s|
    ensures forall i :: 0 <= i < |r| ==> r[i] in s && p(r[i])
    ensures forall i :: 0 <= i < |s| && p(s[i]) ==> s[i] in r
  {
    if |s| == 0 then []
    else (if p(s[0]) then [s[0]] else []) + Filter(s[1..], p)
  }

  /** `idx` lists, in strictly increasing order, positions of `b` that spell out `a`. */
  ghost predicate Embeds<T>(idx: seq<nat>, a: seq<T>, b: seq<T>) {
    && |idx| == |a|
    && (forall i :: 0 <= i < |idx| ==> idx[i] < |b| && b[idx[i]] == a[i])
    && (forall i, j :: 0 <= i < j < |idx| ==> idx[i] < idx[j])
  }

  /** `a` is obtained from `b` by deleting elements: an order-preserving subsequence. */
  ghost predicate IsSubseq<T>(a: seq<T>, b: seq<T>) {
    exists idx :: Embeds(idx, a, b)
  }

  /** Every position shifted one to the right. */
  function Shift(idx: seq<nat>): (r: seq<nat>)
    ensures |r| == |idx|
    ensures forall i :: 0 <= i < |idx| ==> r[i] == idx[i] + 1
  {
    seq(|idx|, i requires 0 <= i < |idx| => idx[i] + 1)
  }

  /** Prepending a matched element to an embedding of the rest extends it. */
  lemma EmbedsCons<T>(idx: seq<nat>, a: seq<T>, b: seq<T>, x: T)
    requires Embeds(idx, a, b)
    ensures Embeds([0] + Shift(idx), [x] + a, [x] + b)
  {
    var full := [0] + Shift(idx);
    forall i | 0 <= i < |full|
      ensures full[i] < |[x] + b| && ([x] + b)[full[i]] == ([x] + a)[i]
    {
      if i > 0 {
        assert full[i] == idx[i - 1] + 1;
      }
    }
  }

  /** Skipping an unmatched element shifts an embedding by one. */
  lemma EmbedsSkip<T>(idx: seq<nat>, a: seq<T>, b: seq<T>, x: T)
    requires Embeds(idx, a, b)
    ensures Embeds(Shift(idx), a, [x] + b)
  {
  }

  /** The result of a filter is an order-preserving subsequence of its input. */
  lemma {:induction false} FilterIsSubseq<T>(s: seq<T>, p: T -> bool)
    ensures IsSubseq(Filter(s, p), s)
  {
    if |s| == 0 {
      assert Embeds([], Filter(s, p), s);
    } else {
      FilterIsSubseq(s[1..], p);
      var idx :| Embeds(idx, Filter(s[1..], p), s[1..]);
      assert s == [s[0]] + s[1..];
      if p(s[0]) {
        EmbedsCons(idx, Filter(s[1..], p), s[1..], s[0]);
        assert Filter(s, p) == [s[0]] + Filter(s[1..], p);
        assert Embeds([0] + Shift(idx), Filter(s, p), s);
      } else {
        EmbedsSkip(idx, Filter(s[1..], p), s[1..], s[0]);
        assert Filter(s, p) == Filter(s[1..], p);
        assert Embeds(Shift(idx), Filter(s, p), s);
      }
    }
  }

  /** A filter keeps every occurrence of a kept element and no occurrence of a dropped one. */
  lemma {:induction false} FilterMultiplicity<T>(s: seq<T>, p: T -> bool, x: T)
    ensures multiset(Filter(s, p))[x] == if p(x) then multiset(s)[x] else 0
  {
    if |s| == 0 {
    } else {
      FilterMultiplicity(s[1..], p, x);
      assert s == [s[0]] + s[1..];
      assert multiset(s) == multiset([s[0]]) + multiset(s[1..]);
      var head := if p(s[0]) then [s[0]] else [];
      assert multiset(Filter(s, p)) == multiset(head) + multiset(Filter(s[1..], p));
    }
  }

  /** A filter whose predicate holds everywhere changes nothing. */
  lemma {:induction false} FilterKeepsAll<T>(s: seq<T>, p: T -> bool)
    requires forall i :: 0 <= i < |s| ==> p(s[i])
    ensures Filter(s, p) == s
  {
    if |s| > 0 {
      FilterKeepsAll(s[1..], p);
      assert s == [s[0]] + s[1..];
    }
  }

  /** A filter of a concatenation is the concatenation of the filters. */
  lemma {:induction false} FilterAppend<T>(a: seq<T>, b: seq<T>, p: T -> bool)
    ensures Filter(a + b, p) == Filter(a, p) + Filter(b, p)
  {
    if |a| > 0 {
      assert (a + b)[1..] == a[1..] + b;
      FilterAppend(a[1..], b, p);
    } else {
      assert a + b == b;
    }
  }

  /** A filter that drops `x` reads straight across it. */
  lemma FilterSkipsDropped<T>(left: seq<T>, x: T, right: seq<T>, p: T -> bool)
    requires !p(x)
    ensures Filter(left + [x] + right, p) == Filter(left, p) + Filter(right, p)
  {
    assert left + [x] + right == left + ([x] + right);
    FilterAppend(left, [x] + right, p);
    FilterConsDropped(x, right, p);
  }

  /** A dropped head contributes nothing. */
  lemma FilterConsDropped<T>(x: T, right: seq<T>, p: T -> bool)
    requires !p(x)
    ensures Filter([x] + right, p) == Filter(right, p)
  {
    assert ([x] + right)[1..] == right;
  }

  /** Filtering out the one element that was inserted, and nothing else, undoes the insertion. */
  lemma FilterDropsInserted<T>(left: seq<T>, x: T, right: seq<T>, p: T -> bool)
    requires !p(x)
    requires forall i :: 0 <= i < |left| ==> p(left[i])
    requires forall i :: 0 <= i < |right| ==> p(right[i])
    ensures Filter(left + [x] + right, p) == left + right
  {
    FilterSkipsDropped(left, x, right, p);
    FilterKeepsAll(left, p);
    FilterKeepsAll(right, p);
  }

  /** Filters under pointwise-equal predicates agree. */
  lemma {:induction false} FilterExtensional<T>(s: seq<T>, p: T -> bool, q: T -> bool)
    requires forall x :: x in s ==> p(x) == q(x)
    ensures Filter(s, p) == Filter(s, q)
  {
    if |s| > 0 {
      assert forall x :: x in s[1..] ==> x in s;
      FilterExtensional(s[1..], p, q);
    }
  }

  /** Splices `x` into `s` so that it ends up at index `k`. */
  function InsertAt<T>(s: seq<T>, k: nat, x: T): (r: seq<T>)
    requires k <= |s|
    ensures |r| == |s| + 1
    ensures r[k] == x
    ensures forall i :: 0 <= i < k ==> r[i] == s[i]
    ensures forall i :: k < i < |r| ==> r[i] == s[i - 1]
  {
    s[..k] + [x] + s[k..]
  }

  /** Every sequence is a subsequence of itself. */
  lemma SubseqOfSelf<T>(s: seq<T>)
    ensures IsSubseq(s, s)
  {
    var idx := seq(|s|, i requires 0 <= i < |s| => i);
    assert Embeds(idx, s, s);
  }

  /** An insertion keeps the old elements as an order-preserving subsequence. */
  lemma InsertKeepsOrder<T>(s: seq<T>, k: nat, x: T)
    requires k <= |s|
    ensures IsSubseq(s, InsertAt(s, k, x))
  {
    var idx := seq(|s|, i requires 0 <= i < |s| => if i < k then i else i + 1);
    assert Embeds(idx, s, InsertAt(s, k, x));
  }

  /** `s` without the element at index `k`. */
  function RemoveAt<T>(s: seq<T>, k: nat): (r: seq<T>)
    requires k < |s|
    ensures |r| == |s| - 1
    ensures forall i :: 0 <= i < k ==> r[i] == s[i]
    ensures forall i :: k <= i < |r| ==> r[i] == s[i + 1]
  {
    s[..k] + s[k + 1..]
  }

  /** Removing what was just inserted gives the original sequence back. */
  lemma RemoveInserted<T>(s: seq<T>, k: nat, x: T)
    requires k <= |s|
    ensures RemoveAt(InsertAt(s, k, x), k) == s
  {
  }

  /** The identity: the key of a sequence whose elements are their own keys. */
  function Itself<T>(x: T): T {
    x
  }

  /** No two positions of `s` carry the same key. */
  ghost predicate DistinctBy<T, K>(s: seq<T>, key: T -> K) {
    forall i, j :: 0 <= i < j < |s| ==> key(s[i]) != key(s[j])
  }

  /** No element of `s` carries key `k`. */
  ghost predicate FreshKey<T, K>(s: seq<T>, key: T -> K, k: K) {
    forall i :: 0 <= i < |s| ==> key(s[i]) != k
  }

  /** Prepending an element with a fresh key keeps keys distinct. */
  lemma PrependFresh<T, K>(s: seq<T>, key: T -> K, x: T)
    requires DistinctBy(s, key)
    requires FreshKey(s, key, key(x))
    ensures DistinctBy([x] + s, key)
  {
  }

  /** Inserting an element with a fresh key anywhere keeps keys distinct. */
  lemma InsertFresh<T, K>(s: seq<T>, key: T -> K, k: nat, x: T)
    requires k <= |s|
    requires DistinctBy(s, key)
    requires FreshKey(s, key, key(x))
    ensures DistinctBy(InsertAt(s, k, x), key)
  {
    var r := InsertAt(s, k, x);
    forall i, j | 0 <= i < j < |r|
      ensures key(r[i]) != key(r[j])
    {
      if j < k {
      } else if j == k {
      } else if i == k {
      } else if i < k {
      } else {
      }
    }
  }

  /** Filtering never introduces two elements with the same key. */
  lemma {:induction false} FilterKeepsDistinct<T, K>(s: seq<T>, key: T -> K, p: T -> bool)
    requires DistinctBy(s, key)
    ensures DistinctBy(Filter(s, p), key)
  {
    if |s| > 0 {
      var tail := Filter(s[1..], p);
      FilterKeepsDistinct(s[1..], key, p);
      if p(s[0]) {
        forall j | 0 <= j < |tail|
          ensures key(s[0]) != key(tail[j])
        {
          assert tail[j] in s[1..];
          var m :| 0 <= m < |s[1..]| && s[1..][m] == tail[j];
          assert s[m + 1] == tail[j];
        }
        assert Filter(s, p) == [s[0]] + tail;
      } else {
        assert Filter(s, p) == tail;
      }
    }
  }
}
