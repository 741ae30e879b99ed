/**
 * The reminder date set of `replace_reminders`: explicit dates win;
 * otherwise each non-negative offset counts that many days back from the
 * deadline. Either way the dates are taken as a set and sorted. Dates are
 * day numbers.
 */
module Reminders {
  import opened Wrappers

  predicate StrictlyIncreasing(xs: seq<int>)
  {
    forall i, j | 0 <= i < j < |xs| :: xs[i] < xs[j]
  }

  /** Python truthiness of an optional list: present and non-empty. */
  predicate Truthy<T>(xs: Option<seq<T>>)
  {
    xs.Some? && |xs.value| > 0
  }

  /** `x` added to a strictly increasing sequence, keeping it strictly increasing. */
  function InsertSorted(x: int, xs: seq<int>): (r: seq<int>)
    requires StrictlyIncreasing(xs)
    ensures StrictlyIncreasing(r)
    ensures forall y :: y in r <==> y == x || y in xs
    ensures |r| <= |xs| + 1
  {
    if |xs| == 0 then [x]
    else if x < xs[0] then [x] + xs
    else if x == xs[0] then xs
    else
      var rest := InsertSorted(x, xs[1..]);
      assert forall i | 0 <= i < |rest| :: xs[0] < rest[i] by {
        forall i | 0 <= i < |rest|
          ensures xs[0] < rest[i]
        {
          assert rest[i] in rest;
          if rest[i] != x {
            var k :| 0 <= k < |xs[1..]| && xs[1..][k] == rest[i];
            assert xs[k + 1] == rest[i];
          }
        }
      }
      assert forall y :: y in xs <==> y == xs[0] || y in xs[1..] by {
        assert xs == [xs[0]] + xs[1..];
      }
      [xs[0]] + rest
  }

  /** `sorted(set(xs))`. */
  function SortedSet(xs: seq<int>): (r: seq<int>)
    ensures StrictlyIncreasing(r)
    ensures forall y :: y in r <==> y in xs
    ensures |r| <= |xs|
  {
    if |xs| == 0 then []
    else
      var init := xs[..|xs| - 1];
      assert xs == init + [xs[|xs| - 1]];
      InsertSorted(xs[|xs| - 1], SortedSet(init))
  }

  lemma HeadIsMember(xs: seq<int>)
    ensures |xs| > 0 ==> xs[0] in xs
  {
  }

  /** Two strictly increasing sequences with the same elements are equal. */
  lemma {:induction false} StrictlyIncreasingUnique(a: seq<int>, b: seq<int>)
    requires StrictlyIncreasing(a) && StrictlyIncreasing(b)
    requires forall y :: y in a <==> y in b
    ensures a == b
    decreases |a|
  {
    if |a| == 0 {
      HeadIsMember(b);
    } else {
      // Both heads are the least element of the common set.
      assert a[0] in a && a[0] in b && b[0] in a;
      assert a[0] == b[0];
      assert a == [a[0]] + a[1..] && b == [b[0]] + b[1..];
      forall y
        ensures y in a[1..] <==> y in b[1..]
      {
        if y in a[1..] {
          var i :| 0 <= i < |a[1..]| && a[1..][i] == y;
          assert a[i + 1] == y && a[0] < y;
          assert y in a;
          assert y in b && y != b[0];
        }
        if y in b[1..] {
          var i :| 0 <= i < |b[1..]| && b[1..][i] == y;
          assert b[i + 1] == y && b[0] < y;
          assert y in b;
          assert y in a && y != a[0];
        }
      }
      StrictlyIncreasingUnique(a[1..], b[1..]);
    }
  }

  /** `sorted(set(...))` of a strictly increasing sequence gives it back. */
  lemma SortedSetOfSorted(xs: seq<int>)
    requires StrictlyIncreasing(xs)
    ensures SortedSet(xs) == xs
  {
    StrictlyIncreasingUnique(SortedSet(xs), xs);
  }

  /** `[o for o in offsets if o is not None and o >= 0]`. */
  function ValidOffsets(offsets: seq<Option<int>>): (r: seq<int>)
    ensures forall o :: o in r <==> o >= 0 && Some(o) in offsets
    ensures |r| <= |offsets|
  {
    if |offsets| == 0 then []
    else
      var init := offsets[..|offsets| - 1];
      var last := offsets[|offsets| - 1];
      assert offsets == init + [last];
      if last.Some? && last.value >= 0 then ValidOffsets(init) + [last.value] else ValidOffsets(init)
  }

  /** The days `deadline - o` for each offset `o`. */
  function DaysBefore(deadline: int, offsets: seq<int>): (r: seq<int>)
    ensures |r| == |offsets|
    ensures forall d :: d in r <==> deadline - d in offsets
  {
    var r := seq(|offsets|, i requires 0 <= i < |offsets| => deadline - offsets[i]);
    assert forall d :: d in r <==> deadline - d in offsets by {
      forall d
        ensures d in r <==> deadline - d in offsets
      {
        if deadline - d in offsets {
          var i :| 0 <= i < |offsets| && offsets[i] == deadline - d;
          assert r[i] == d;
        }
      }
    }
    r
  }

  /**
   * The dates `replace_reminders` creates reminders for. Truthy explicit
   * dates win and are used as a set; otherwise, with truthy offsets, each
   * present non-negative offset gives the day that many days before the
   * deadline; otherwise there are none. The dates come strictly ascending.
   */
  function ReminderDates(deadline: int, offsets: Option<seq<Option<int>>>, dates: Option<seq<int>>): (r: seq<int>)
    ensures StrictlyIncreasing(r)
    ensures Truthy(dates) ==> forall d :: d in r <==> d in dates.value
    ensures Truthy(dates) ==> |r| <= |dates.value|
    ensures !Truthy(dates) && Truthy(offsets) ==>
      forall d :: d in r <==> d <= deadline && Some(deadline - d) in offsets.value
    ensures !Truthy(dates) && Truthy(offsets) ==> |r| <= |offsets.value|
    ensures !Truthy(dates) && !Truthy(offsets) ==> r == []
  {
    if Truthy(dates) then
      SortedSet(dates.value)
    else if Truthy(offsets) then
      var offs := SortedSet(ValidOffsets(offsets.value));
      SortedSet(DaysBefore(deadline, offs))
    else
      []
  }

  /** No reminder date falls after the deadline in offset mode. */
  lemma OffsetDatesNotAfterDeadline(deadline: int, offsets: Option<seq<Option<int>>>, dates: Option<seq<int>>)
    requires !Truthy(dates) && Truthy(offsets)
    ensures forall i | 0 <= i < |ReminderDates(deadline, offsets, dates)| :: ReminderDates(deadline, offsets, dates)[i] <= deadline
  {
    var r := ReminderDates(deadline, offsets, dates);
    forall i | 0 <= i < |r|
      ensures r[i] <= deadline
    {
      assert r[i] in r;
    }
  }

  /** Explicit dates that are already strictly ascending are used exactly as given. */
  lemma SortedDatesKept(deadline: int, offsets: Option<seq<Option<int>>>, dates: seq<int>)
    requires |dates| > 0 && StrictlyIncreasing(dates)
    ensures ReminderDates(deadline, offsets, Some(dates)) == dates
  {
    SortedSetOfSorted(dates);
  }
}
