/** Half-open ranges of sequence numbers as the sets they stand for. */
module Intervals {
  import opened Sorting

  datatype Interval = Interval(start: int, end: int)
  {
    predicate Has(x: int) {
      start <= x < end
    }

    function Numbers(): set<int> {
      set x | start <= x < end && Has(x)
    }
  }

  ghost function Any<T>(items: set<T>): (item: T)
    requires items != {}
    ensures item in items
  {
    var item :| item in items;
    item
  }

  function Union(intervals: seq<Interval>): set<int>
    decreases |intervals|
  {
    if intervals == [] then {} else Union(intervals[..|intervals| - 1]) + intervals[|intervals| - 1].Numbers()
  }

  lemma {:induction false} InUnion(intervals: seq<Interval>, x: int)
    ensures x in Union(intervals) <==> exists i :: 0 <= i < |intervals| && intervals[i].Has(x)
    decreases |intervals|
  {
    if intervals != [] {
      var n := |intervals| - 1;
      InUnion(intervals[..n], x);
      if x in Union(intervals[..n]) {
        var i :| 0 <= i < n && intervals[..n][i].Has(x);
        assert intervals[i].Has(x);
      }
      if i :| 0 <= i < |intervals| && intervals[i].Has(x) {
        assert i < n ==> intervals[..n][i].Has(x);
      }
    }
  }

  lemma FirstUnion(intervals: seq<Interval>)
    requires intervals != []
    ensures Union(intervals[..1]) == intervals[0].Numbers()
  {
    assert intervals[..1][..0] == [];
  }

  lemma NextUnion(intervals: seq<Interval>, k: nat)
    requires k < |intervals|
    ensures Union(intervals[..k + 1]) == Union(intervals[..k]) + intervals[k].Numbers()
  {
    assert intervals[..k + 1][..k] == intervals[..k];
  }

  /** The union does not depend on the order. */
  lemma SameUnion(a: seq<Interval>, b: seq<Interval>)
    requires multiset(a) == multiset(b)
    ensures Union(a) == Union(b)
  {
    forall x
      ensures x in Union(a) <==> x in Union(b)
    {
      InUnion(a, x);
      InUnion(b, x);
      if x in Union(a) {
        MemberOfBoth(a, b, x);
      }
      if x in Union(b) {
        MemberOfBoth(b, a, x);
      }
    }
  }

  lemma MemberOfBoth(a: seq<Interval>, b: seq<Interval>, x: int)
    requires multiset(a) == multiset(b)
    requires exists i :: 0 <= i < |a| && a[i].Has(x)
    ensures exists i :: 0 <= i < |b| && b[i].Has(x)
  {
    var i :| 0 <= i < |a| && a[i].Has(x);
    assert a[i] in multiset(b);
    var j :| 0 <= j < |b| && b[j] == a[i];
    assert b[j].Has(x);
  }

  lemma {:induction false} SpanSize(start: int, end: int)
    requires start <= end
    ensures |Interval(start, end).Numbers()| == end - start
    decreases end - start
  {
    if start < end {
      SpanSize(start, end - 1);
      assert Interval(start, end).Numbers() == Interval(start, end - 1).Numbers() + {end - 1} by {
        assert forall x :: Interval(start, end).Has(x) <==> Interval(start, end - 1).Has(x) || x == end - 1;
      }
    }
  }

  /** Adding numbers from `from` on to numbers below it. */
  lemma GrowBy(below: set<int>, from: int, end: int)
    requires forall x :: x in below ==> x < from
    requires from <= end
    ensures |below + Interval(from, end).Numbers()| == |below| + (end - from)
  {
    SpanSize(from, end);
    assert below !! Interval(from, end).Numbers();
  }

  predicate Lexicographic(a: Interval, b: Interval) {
    a.start < b.start || (a.start == b.start && a.end <= b.end)
  }

  lemma LexicographicTotal()
    ensures TotalOrder(Lexicographic)
  {}

  /** `sorted` on pairs. */
  function Ascending(intervals: seq<Interval>): (ordered: seq<Interval>)
    ensures |ordered| == |intervals|
  {
    Sort(intervals, Lexicographic)
  }

  lemma AscendingFacts(intervals: seq<Interval>)
    ensures
      var ordered := Ascending(intervals);
      && multiset(ordered) == multiset(intervals)
      && Union(ordered) == Union(intervals)
      && (forall i, j :: 0 <= i < j < |ordered| ==> ordered[i].start <= ordered[j].start)
  {
    LexicographicTotal();
    SortOrders(intervals, Lexicographic);
    SameUnion(Ascending(intervals), intervals);
    forall i, j | 0 <= i < j < |intervals|
      ensures Ascending(intervals)[i].start <= Ascending(intervals)[j].start
    {
      assert Lexicographic(Ascending(intervals)[i], Ascending(intervals)[j]);
    }
  }

  /** Sorting keeps what holds of every interval. */
  lemma AscendingMembers(intervals: seq<Interval>, i: nat)
    requires i < |intervals|
    ensures Ascending(intervals)[i] in intervals
  {
    LexicographicTotal();
    SortMember(intervals, Lexicographic, Ascending(intervals)[i]);
  }
}
