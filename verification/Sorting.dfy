/** Python's `sorted`: a stable ascending order. */
module Sorting {

  /** `x` goes behind everything that is not greater. */
  function Insert<T>(xs: seq<T>, x: T, le: (T, T) -> bool): (ys: seq<T>)
    ensures |ys| == |xs| + 1
  {
    if xs == [] then [x]
    else if le(xs[0], x) then [xs[0]] + Insert(xs[1..], x, le)
    else [x] + xs
  }

  function Sort<T>(xs: seq<T>, le: (T, T) -> bool): (ys: seq<T>)
    ensures |ys| == |xs|
  {
    if xs == [] then [] else Insert(Sort(xs[..|xs| - 1], le), xs[|xs| - 1], le)
  }

  ghost predicate TotalOrder<T(!new)>(le: (T, T) -> bool) {
    && (forall a, b :: le(a, b) || le(b, a))
    && (forall a, b, c :: le(a, b) && le(b, c) ==> le(a, c))
  }

  ghost predicate Ordered<T>(xs: seq<T>, le: (T, T) -> bool) {
    forall i, j :: 0 <= i < j < |xs| ==> le(xs[i], xs[j])
  }

  lemma {:induction false} InsertMembers<T>(xs: seq<T>, x: T, le: (T, T) -> bool)
    ensures multiset(Insert(xs, x, le)) == multiset(xs) + multiset{x}
  {
    if xs == [] {
    } else if le(xs[0], x) {
      InsertMembers(xs[1..], x, le);
      assert xs == [xs[0]] + xs[1..];
    } else {
      assert multiset([x] + xs) == multiset{x} + multiset(xs);
    }
  }

  lemma {:induction false} InsertOrdered<T(!new)>(xs: seq<T>, x: T, le: (T, T) -> bool)
    requires TotalOrder(le) && Ordered(xs, le)
    ensures Ordered(Insert(xs, x, le), le)
  {
    if xs != [] && le(xs[0], x) {
      var ys := Insert(xs[1..], x, le);
      InsertOrdered(xs[1..], x, le);
      InsertMembers(xs[1..], x, le);
      forall j | 0 <= j < |ys|
        ensures le(xs[0], ys[j])
      {
        assert ys[j] in multiset(ys);
        assert ys[j] == x || ys[j] in multiset(xs[1..]);
        if ys[j] != x {
          var k :| 0 <= k < |xs[1..]| && xs[1..][k] == ys[j];
          assert xs[k + 1] == ys[j];
        }
      }
    }
  }

  lemma {:induction false} SortOrders<T(!new)>(xs: seq<T>, le: (T, T) -> bool)
    requires TotalOrder(le)
    ensures Ordered(Sort(xs, le), le)
    ensures multiset(Sort(xs, le)) == multiset(xs)
  {
    if xs != [] {
      var n := |xs| - 1;
      SortOrders(xs[..n], le);
      InsertOrdered(Sort(xs[..n], le), xs[n], le);
      InsertMembers(Sort(xs[..n], le), xs[n], le);
      assert xs == xs[..n] + [xs[n]];
    }
  }

  /** Nothing moves in a list that is in order already. */
  lemma {:induction false} InsertLast<T>(xs: seq<T>, x: T, le: (T, T) -> bool)
    requires forall i :: 0 <= i < |xs| ==> le(xs[i], x)
    ensures Insert(xs, x, le) == xs + [x]
  {
    if xs != [] {
      InsertLast(xs[1..], x, le);
      assert xs + [x] == [xs[0]] + (xs[1..] + [x]);
    }
  }

  lemma {:induction false} SortFixes<T>(xs: seq<T>, le: (T, T) -> bool)
    requires Ordered(xs, le)
    ensures Sort(xs, le) == xs
  {
    if xs != [] {
      var n := |xs| - 1;
      SortFixes(xs[..n], le);
      InsertLast(xs[..n], xs[n], le);
      assert xs == xs[..n] + [xs[n]];
    }
  }

  lemma SortMember<T(!new)>(xs: seq<T>, le: (T, T) -> bool, x: T)
    requires TotalOrder(le)
    ensures x in Sort(xs, le) <==> x in xs
  {
    SortOrders(xs, le);
    assert x in Sort(xs, le) <==> x in multiset(Sort(xs, le));
  }
}
