/**
 * A sort by an integer key, used for both orderings in the system:
 * reminders ascending by day (the database's `ORDER BY remind_on`) and
 * visitors descending by visit count (JavaScript's `Array.sort`
 * with a `b - a` comparator, here the key `-visits`).
 */
module Sorting {

  predicate SortedBy<T>(xs: seq<T>, key: T -> int)
  {
    forall i, j | 0 <= i < j < |xs| :: key(xs[i]) <= key(xs[j])
  }

  lemma SortedCons<T>(h: T, xs: seq<T>, key: T -> int)
    requires SortedBy(xs, key) && (|xs| > 0 ==> key(h) <= key(xs[0]))
    ensures SortedBy([h] + xs, key)
  {
  }

  /** `x` placed before the first element whose key is not smaller than its own. */
  function InsertBy<T>(x: T, xs: seq<T>, key: T -> int): (r: seq<T>)
    requires SortedBy(xs, key)
    ensures SortedBy(r, key)
    ensures multiset(r) == multiset(xs) + multiset{x}
    ensures |r| == |xs| + 1 && (r[0] == x || (|xs| > 0 && r[0] == xs[0]))
  {
    if |xs| == 0 then [x]
    else if key(x) <= key(xs[0]) then SortedCons(x, xs, key); [x] + xs
    else
      var rest := InsertBy(x, xs[1..], key);
      assert xs == [xs[0]] + xs[1..];
      SortedCons(xs[0], rest, key);
      [xs[0]] + rest
  }

  /** An insertion sort by `key`, ascending. */
  function SortBy<T>(xs: seq<T>, key: T -> int): (r: seq<T>)
    ensures SortedBy(r, key)
    ensures multiset(r) == multiset(xs)
    ensures |r| == |xs|
  {
    if |xs| == 0 then []
    else
      assert xs == [xs[0]] + xs[1..];
      InsertBy(xs[0], SortBy(xs[1..], key), key)
  }

  /**
   * The first `n` elements of a sorted permutation come no later in key
   * order than any element left over.
   */
  lemma {:induction false} PrefixBeforeRest<T>(xs: seq<T>, n: nat, key: T -> int)
    requires SortedBy(xs, key) && n <= |xs|
    ensures forall i, y | 0 <= i < n && multiset(xs[..n])[y] < multiset(xs)[y] :: key(xs[i]) <= key(y)
  {
    assert xs == xs[..n] + xs[n..];
    forall i, y | 0 <= i < n && multiset(xs[..n])[y] < multiset(xs)[y]
      ensures key(xs[i]) <= key(y)
    {
      assert y in multiset(xs[n..]);
      var j :| 0 <= j < |xs[n..]| && xs[n..][j] == y;
      assert xs[n + j] == y;
    }
  }
}
