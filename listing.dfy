/** The `ORDER BY date ASC` and `ORDER BY date DESC` listings of the DAOs.
    SQLite compares the stored ISO text of the date column; rows with the
    same date come out in an order the query leaves open. */
module Listing {
  import opened Dates

  /** `a` sorts strictly before `b` in the requested direction. */
  predicate Precedes(a: Date, b: Date, descending: bool) {
    if descending then Before(b, a) else Before(a, b)
  }

  /** No row's stored text sorts, in the requested direction, before the
      text of a row listed earlier: what the SQL ordering guarantees. */
  predicate OrderedByDateText<T>(xs: seq<T>, date: T -> CalendarDate, descending: bool) {
    forall i, j :: 0 <= i < j < |xs| ==>
      if descending then !LexLess(Format(date(xs[i])), Format(date(xs[j])))
      else !LexLess(Format(date(xs[j])), Format(date(xs[i])))
  }

  /** The same condition on the dates themselves. */
  predicate Chronological<T>(xs: seq<T>, date: T -> CalendarDate, descending: bool) {
    forall i, j :: 0 <= i < j < |xs| ==> !Precedes(date(xs[j]), date(xs[i]), descending)
  }

  /** Ordering the dates orders their ISO texts. */
  lemma ChronologicalIsTextOrder<T>(xs: seq<T>, date: T -> CalendarDate, descending: bool)
    requires Chronological(xs, date, descending)
    ensures OrderedByDateText(xs, date, descending)
  {
    forall i, j | 0 <= i < j < |xs|
      ensures if descending then !LexLess(Format(date(xs[i])), Format(date(xs[j])))
              else !LexLess(Format(date(xs[j])), Format(date(xs[i])))
    {
      TextOrderIsChronological(date(xs[i]), date(xs[j]));
      TextOrderIsChronological(date(xs[j]), date(xs[i]));
    }
  }

  /** `x` placed before the first element it precedes. */
  method InsertByDate<T>(xs: seq<T>, x: T, date: T -> CalendarDate, descending: bool) returns (r: seq<T>)
    requires Chronological(xs, date, descending)
    ensures Chronological(r, date, descending)
    ensures multiset(r) == multiset(xs) + multiset{x}
  {
    var i := 0;
    while i < |xs| && !Precedes(date(x), date(xs[i]), descending)
      invariant 0 <= i <= |xs|
      invariant forall k :: 0 <= k < i ==> !Precedes(date(x), date(xs[k]), descending)
    {
      i := i + 1;
    }
    r := xs[..i] + [x] + xs[i..];
    assert xs == xs[..i] + xs[i..];
  }

  /** A listing of `items`: each exactly once, in date order. */
  method SortByDate<T>(items: set<T>, date: T -> CalendarDate, descending: bool) returns (r: seq<T>)
    ensures multiset(r) == multiset(items)
    ensures OrderedByDateText(r, date, descending)
  {
    r := [];
    var left := items;
    while left != {}
      invariant left <= items
      invariant multiset(r) == multiset(items - left)
      invariant Chronological(r, date, descending)
      decreases |left|
    {
      var x :| x in left;
      r := InsertByDate(r, x, date, descending);
      assert items - (left - {x}) == (items - left) + {x};
      left := left - {x};
    }
    assert items - left == items;
    ChronologicalIsTextOrder(r, date, descending);
  }

  /** A listing of `items` in no particular order, each exactly once: what a
      `SELECT` without `ORDER BY` returns. */
  method ListAll<T>(items: set<T>) returns (r: seq<T>)
    ensures multiset(r) == multiset(items)
  {
    r := [];
    var left := items;
    while left != {}
      invariant left <= items
      invariant multiset(r) == multiset(items - left)
      decreases |left|
    {
      var x :| x in left;
      r := r + [x];
      assert items - (left - {x}) == (items - left) + {x};
      left := left - {x};
    }
    assert items - left == items;
  }
}
