/** Helpers over sequences of row ids: the shapes a query result takes (filtered, limited, duplicate-free). */
module Seqs {

  /** No id occurs twice in `s`. */
  ghost predicate NoDuplicates(s: seq<int>) {
    forall i, j :: 0 <= i < j < |s| ==> s[i] != s[j]
  }

  /** `order` lists every id of `keys` exactly once: an order in which a query can return the rows of a table. */
  ghost predicate Enumerates(order: seq<int>, keys: set<int>) {
    NoDuplicates(order) && forall x :: x in order <==> x in keys
  }

  /** The ids of `s` for which `keep` holds, in the order of `s` (a WHERE clause over rows). */
  function Filter(s: seq<int>, keep: int -> bool): (r: seq<int>)
    ensures |r| <= |s|
    ensures forall x :: x in r <==> x in s && keep(x)
    ensures NoDuplicates(s) ==> NoDuplicates(r)
  {
    if s == [] then []
    else
      var rest := Filter(s[1..], keep);
      assert forall x :: x in s <==> x == s[0] || x in s[1..];
      if keep(s[0]) then [s[0]] + rest else rest
  }

  /**
   * The first `n` ids of `s`, or all of them when there are fewer (a LIMIT clause). A negative
   * limit, which a query builder would ignore, never reaches here: the only limit passed is an
   * unsigned stock quantity, and selection stops at a quantity of 0 before drawing.
   */
  function Take(s: seq<int>, n: int): (r: seq<int>)
    ensures |r| == if n <= 0 then 0 else if n < |s| then n else |s|
    ensures forall i :: 0 <= i < |r| ==> r[i] == s[i]
    ensures forall x :: x in r ==> x in s
    ensures NoDuplicates(s) ==> NoDuplicates(r)
  {
    if n <= 0 then [] else if n < |s| then s[..n] else s
  }

  /** Dropping the head of a duplicate-free sequence leaves one without duplicates or the head. */
  lemma TailNoDuplicates(s: seq<int>)
    requires NoDuplicates(s) && s != []
    ensures NoDuplicates(s[1..]) && s[0] !in s[1..]
  {
    var tail := s[1..];
    forall i, j | 0 <= i < j < |tail| ensures tail[i] != tail[j] {
      assert tail[i] == s[i + 1] && tail[j] == s[j + 1];
    }
  }

  /** A non-empty sequence is its head followed by its tail. */
  lemma HeadThenTail<T>(s: seq<T>)
    requires s != []
    ensures s == [s[0]] + s[1..]
  {
  }

  /** Concatenation regroups freely. */
  lemma AppendAssociative<T>(a: seq<T>, b: seq<T>, c: seq<T>)
    ensures (a + b) + c == a + (b + c)
  {
  }

  /** A relation holding pairwise along two sequences, and between two heads, holds pairwise along both with the heads prepended. */
  lemma PairwisePrepend<A, B>(x: A, xs: seq<A>, y: B, ys: seq<B>, related: (A, B) -> bool)
    requires |xs| == |ys| && related(x, y)
    requires forall k :: 0 <= k < |xs| ==> related(xs[k], ys[k])
    ensures forall k :: 0 <= k < |xs| + 1 ==> related(([x] + xs)[k], ([y] + ys)[k])
  {
    forall k | 1 <= k < |xs| + 1
      ensures related(([x] + xs)[k], ([y] + ys)[k])
    {
      assert ([x] + xs)[k] == xs[k - 1] && ([y] + ys)[k] == ys[k - 1];
    }
  }

  /** A duplicate-free sequence holding `x` and nothing else is `[x]`. */
  lemma SingletonOf(s: seq<int>, x: int)
    requires NoDuplicates(s) && x in s
    requires forall y :: y in s ==> y == x
    ensures s == [x]
  {
    DistinctCardinality(s);
    assert Elements(s) == {x};
    assert s[0] in s;
  }

  /** The set of ids occurring in `s`. */
  function Elements(s: seq<int>): (r: set<int>)
    ensures forall x :: x in r <==> x in s
  {
    set x | x in s
  }

  /** A duplicate-free sequence has as many elements as the set of its values. */
  lemma {:induction false} DistinctCardinality(s: seq<int>)
    requires NoDuplicates(s)
    ensures |Elements(s)| == |s|
  {
    if s != [] {
      DistinctCardinality(s[1..]);
      assert Elements(s) == {s[0]} + Elements(s[1..]);
      assert s[0] !in Elements(s[1..]);
    }
  }

  /** A duplicate-free sequence of ids, all drawn from `xs`, is no longer than `xs`; one that also covers `xs` is exactly as long. */
  lemma EnumerationCardinality(s: seq<int>, xs: set<int>)
    requires NoDuplicates(s)
    requires forall x :: x in s ==> x in xs
    ensures |s| <= |xs|
    ensures (forall x :: x in xs ==> x in s) ==> |s| == |xs|
  {
    DistinctCardinality(s);
    assert Elements(s) <= xs;
    SubsetCardinality(Elements(s), xs);
    if forall x :: x in xs ==> x in s {
      assert Elements(s) == xs;
    }
  }

  lemma SubsetCardinality(a: set<int>, b: set<int>)
    requires a <= b
    ensures |a| <= |b|
  {
    assert b == a + (b - a);
  }
}
