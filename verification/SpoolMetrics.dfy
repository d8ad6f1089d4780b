/** Published artifacts on the sequence line: which ranges clash, and how many numbers no range accounts for. */
module SpoolMetrics {
  import opened Bytes
  import opened Sorting
  import opened Intervals

  type Identity = string

  datatype Measurement = Measurement(identity: Identity, records: nat, rawBytes: nat, ranges: seq<Interval>)

  datatype OwnedRange = OwnedRange(range: Interval, identity: Identity)

  /** Tuple order; identities are compared as strings are. */
  predicate StringLe(a: string, b: string) {
    a == [] || (b != [] && (a[0] < b[0] || (a[0] == b[0] && StringLe(a[1..], b[1..]))))
  }

  lemma {:induction false} StringsTotal(a: string, b: string)
    ensures StringLe(a, b) || StringLe(b, a)
    ensures StringLe(a, b) && StringLe(b, a) ==> a == b
  {
    if a != [] && b != [] && a[0] == b[0] {
      StringsTotal(a[1..], b[1..]);
      assert a == [a[0]] + a[1..] && b == [b[0]] + b[1..];
    }
  }

  lemma {:induction false} StringsTransitive(a: string, b: string, c: string)
    requires StringLe(a, b) && StringLe(b, c)
    ensures StringLe(a, c)
  {
    if a != [] && a[0] == b[0] == c[0] {
      StringsTransitive(a[1..], b[1..], c[1..]);
    }
  }

  predicate OwnedLe(a: OwnedRange, b: OwnedRange) {
    || a.range.start < b.range.start
    || (a.range.start == b.range.start &&
        (a.range.end < b.range.end || (a.range.end == b.range.end && StringLe(a.identity, b.identity))))
  }

  lemma OwnedTotal()
    ensures TotalOrder(OwnedLe)
  {
    forall a, b
      ensures OwnedLe(a, b) || OwnedLe(b, a)
    {
      StringsTotal(a.identity, b.identity);
    }
    forall a, b, c | OwnedLe(a, b) && OwnedLe(b, c)
      ensures OwnedLe(a, c)
    {
      if StringLe(a.identity, b.identity) && StringLe(b.identity, c.identity) {
        StringsTransitive(a.identity, b.identity, c.identity);
      }
    }
  }

  function Owned(ranges: seq<Interval>, identity: Identity): (owned: seq<OwnedRange>)
    ensures |owned| == |ranges|
  {
    seq(|ranges|, i requires 0 <= i < |ranges| => OwnedRange(ranges[i], identity))
  }

  function AllRanges(values: seq<Measurement>): seq<OwnedRange> {
    if values == [] then [] else Owned(values[0].ranges, values[0].identity) + AllRanges(values[1..])
  }

  ghost predicate WellFormed(values: seq<Measurement>) {
    forall i, j :: 0 <= i < |values| && 0 <= j < |values[i].ranges| ==>
      0 <= values[i].ranges[j].start <= values[i].ranges[j].end
  }

  /** The earlier of two ranges of different artifacts reaches past the start of the later. */
  predicate Clash(a: OwnedRange, b: OwnedRange) {
    a.identity != b.identity && OwnedLe(a, b) && b.range.start < a.range.end
  }

  ghost predicate HasClash(ranges: seq<OwnedRange>) {
    exists i, j :: 0 <= i < |ranges| && 0 <= j < |ranges| && Clash(ranges[i], ranges[j])
  }

  // ----- the same, said of the measurements

  /** The later of two starts lies before the end of the other range; of equal starts, neither range is empty. */
  predicate Collide(a: Interval, b: Interval) {
    || a.start < b.start < a.end
    || b.start < a.start < b.end
    || (a.start == b.start && a.start < a.end && b.start < b.end)
  }

  /** Two artifacts have ranges that collide. */
  ghost predicate ArtifactsClash(values: seq<Measurement>) {
    exists i, j, p, q ::
      && 0 <= i < |values| && 0 <= j < |values| && 0 <= p < |values[i].ranges| && 0 <= q < |values[j].ranges|
      && values[i].identity != values[j].identity
      && Collide(values[i].ranges[p], values[j].ranges[q])
  }

  ghost predicate IsRange(values: seq<Measurement>, range: Interval, identity: Identity) {
    exists i, p :: 0 <= i < |values| && 0 <= p < |values[i].ranges| && values[i].ranges[p] == range
                   && values[i].identity == identity
  }

  /** Every range of every artifact is listed, under that artifact's identity, and nothing else is. */
  lemma {:induction false} AllRangesAre(values: seq<Measurement>, item: OwnedRange)
    ensures item in AllRanges(values) <==> IsRange(values, item.range, item.identity)
  {
    if values != [] {
      var first, rest := values[0], values[1..];
      AllRangesAre(rest, item);
      if IsRange(rest, item.range, item.identity) {
        var i, p :| 0 <= i < |rest| && 0 <= p < |rest[i].ranges| && rest[i].ranges[p] == item.range
                    && rest[i].identity == item.identity;
        assert values[i + 1].ranges[p] == item.range;
      }
      if item in Owned(first.ranges, first.identity) {
        var p :| 0 <= p < |first.ranges| && Owned(first.ranges, first.identity)[p] == item;
        assert values[0].ranges[p] == item.range;
      }
      if IsRange(values, item.range, item.identity) {
        var i, p :| 0 <= i < |values| && 0 <= p < |values[i].ranges| && values[i].ranges[p] == item.range
                    && values[i].identity == item.identity;
        if i == 0 {
          assert Owned(first.ranges, first.identity)[p] == item;
        } else {
          assert rest[i - 1].ranges[p] == item.range;
        }
      }
    }
  }

  lemma ClashIsCollision(a: OwnedRange, b: OwnedRange)
    ensures Clash(a, b) || Clash(b, a) <==> a.identity != b.identity && Collide(a.range, b.range)
  {
    StringsTotal(a.identity, b.identity);
  }

  lemma ClashOfArtifacts(values: seq<Measurement>)
    ensures HasClash(AllRanges(values)) <==> ArtifactsClash(values)
  {
    hide Clash, Collide, AllRanges;
    var all := AllRanges(values);
    if k, l :| 0 <= k < |all| && 0 <= l < |all| && Clash(all[k], all[l]) {
      ClashIsCollision(all[k], all[l]);
      AllRangesAre(values, all[k]);
      AllRangesAre(values, all[l]);
      var i, p :| 0 <= i < |values| && 0 <= p < |values[i].ranges| && values[i].ranges[p] == all[k].range
                  && values[i].identity == all[k].identity;
      var j, q :| 0 <= j < |values| && 0 <= q < |values[j].ranges| && values[j].ranges[q] == all[l].range
                  && values[j].identity == all[l].identity;
      assert Collide(values[i].ranges[p], values[j].ranges[q]);
    }
    if i, j, p, q :| && 0 <= i < |values| && 0 <= j < |values| && 0 <= p < |values[i].ranges|
                     && 0 <= q < |values[j].ranges| && values[i].identity != values[j].identity
                     && Collide(values[i].ranges[p], values[j].ranges[q]) {
      var a, b := OwnedRange(values[i].ranges[p], values[i].identity), OwnedRange(values[j].ranges[q], values[j].identity);
      ClashIsCollision(a, b);
      AllRangesAre(values, a);
      AllRangesAre(values, b);
      var k :| 0 <= k < |all| && all[k] == a;
      var l :| 0 <= l < |all| && all[l] == b;
      assert Clash(all[k], all[l]) || Clash(all[l], all[k]);
    }
  }

  /** For nonempty ranges a clash is a shared sequence number. */
  lemma ClashIsOverlap(a: OwnedRange, b: OwnedRange)
    requires a.range.start < a.range.end && b.range.start < b.range.end
    ensures Clash(a, b) || Clash(b, a)
       <==> a.identity != b.identity && exists x :: x in a.range.Numbers() && x in b.range.Numbers()
  {
    StringsTotal(a.identity, b.identity);
    if Clash(a, b) {
      assert b.range.start in a.range.Numbers() && b.range.start in b.range.Numbers();
    }
    if Clash(b, a) {
      assert a.range.start in b.range.Numbers() && a.range.start in a.range.Numbers();
    }
  }

  lemma ClashOrdered(ranges: seq<OwnedRange>, ordered: seq<OwnedRange>)
    requires multiset(ranges) == multiset(ordered) && Ordered(ordered, OwnedLe)
    ensures HasClash(ranges) <==> OrderedClash(ordered)
  {
    if i, j :| 0 <= i < |ranges| && 0 <= j < |ranges| && Clash(ranges[i], ranges[j]) {
      assert ranges[i] in multiset(ordered) && ranges[j] in multiset(ordered);
      var k :| 0 <= k < |ordered| && ordered[k] == ranges[i];
      var l :| 0 <= l < |ordered| && ordered[l] == ranges[j];
      StringsTotal(ranges[i].identity, ranges[j].identity);
      assert l < k ==> OwnedLe(ordered[l], ordered[k]);
    }
    if i, j :| 0 <= i < j < |ordered| && ordered[i].identity != ordered[j].identity
               && ordered[j].range.start < ordered[i].range.end {
      assert OwnedLe(ordered[i], ordered[j]);
      assert ordered[i] in multiset(ranges) && ordered[j] in multiset(ranges);
      var k :| 0 <= k < |ranges| && ranges[k] == ordered[i];
      var l :| 0 <= l < |ranges| && ranges[l] == ordered[j];
      assert Clash(ranges[k], ranges[l]);
    }
  }

  /** What the sweep remembers of `ordered[..k]`: no clash so far, the furthest end, and one range that reaches it. */
  ghost predicate Swept(
    ordered: seq<OwnedRange>, k: nat, previousEnd: int, previousIdentity: Option<Identity>, furthest: nat)
    requires k <= |ordered|
  {
    && (forall i, j :: 0 <= i < j < k && ordered[i].identity != ordered[j].identity ==>
          ordered[i].range.end <= ordered[j].range.start)
    && (forall i :: 0 <= i < k ==> ordered[i].range.end <= previousEnd)
    && previousEnd >= -1
    && (previousIdentity.None? ==> previousEnd == -1)
    && (previousIdentity.Some? ==>
          furthest < k && ordered[furthest].range.end == previousEnd
          && ordered[furthest].identity == previousIdentity.value)
  }

  /** A range that starts before the furthest end but shares its owner clashes with nothing: whatever else reached
    * past its start would have clashed with the furthest range before. */
  lemma StillSwept(
    ordered: seq<OwnedRange>, k: nat, previousEnd: int, previousIdentity: Option<Identity>, furthest: nat)
    requires k < |ordered| && Swept(ordered, k, previousEnd, previousIdentity, furthest)
    requires forall i, j :: 0 <= i < j < |ordered| ==> ordered[i].range.start <= ordered[j].range.start
    requires ordered[k].range.start >= 0
    requires ordered[k].range.start >= previousEnd || Some(ordered[k].identity) == previousIdentity
    ensures
      if ordered[k].range.end > previousEnd then Swept(ordered, k + 1, ordered[k].range.end, Some(ordered[k].identity), k)
      else Swept(ordered, k + 1, previousEnd, previousIdentity, furthest)
  {
    forall i | 0 <= i < k && ordered[i].identity != ordered[k].identity
      ensures ordered[i].range.end <= ordered[k].range.start
    {
      if ordered[k].range.start < previousEnd && i != furthest {
        assert ordered[i].range.start <= ordered[k].range.start && ordered[furthest].range.start <= ordered[k].range.start;
      }
    }
  }

  ghost predicate OrderedClash(ordered: seq<OwnedRange>) {
    exists i, j :: 0 <= i < j < |ordered| && ordered[i].identity != ordered[j].identity
                   && ordered[j].range.start < ordered[i].range.end
  }

  /** `_reject_overlapping_ranges`: one pass remembering only the furthest end and its owner still rejects exactly the
    * lists in which two artifacts clash. */
  method RejectOverlappingRanges(values: seq<Measurement>) returns (rejected: bool)
    requires WellFormed(values)
    ensures rejected <==> ArtifactsClash(values)
  {
    hide OwnedLe, StringLe, Sort, AllRanges, Unowned, Swept, ArtifactsClash, HasClash, WellFormed;
    RangesWellFormed(values);
    ClashOfArtifacts(values);
    var ranges := AllRanges(values);
    var ordered := Sort(ranges, OwnedLe);
    SortedRanges(ranges);
    var previousEnd := -1;
    var previousIdentity: Option<Identity> := None;
    ghost var furthest: nat := 0;
    NothingSwept(ordered);
    for k := 0 to |ordered|
      invariant Swept(ordered, k, previousEnd, previousIdentity, furthest)
    {
      var item := ordered[k];
      if item.range.start < previousEnd && Some(item.identity) != previousIdentity {
        FoundClash(ordered, k, previousEnd, previousIdentity, furthest);
        return true;
      }
      StillSwept(ordered, k, previousEnd, previousIdentity, furthest);
      if item.range.end > previousEnd {
        previousEnd := item.range.end;
        previousIdentity := Some(item.identity);
        furthest := k;
      }
    }
    SweptClean(ordered, previousEnd, previousIdentity, furthest);
    return false;
  }

  lemma SortedRanges(ranges: seq<OwnedRange>)
    requires forall i :: 0 <= i < |ranges| ==> ranges[i].range.start >= 0
    ensures
      var ordered := Sort(ranges, OwnedLe);
      && (HasClash(ranges) <==> OrderedClash(ordered))
      && (forall i :: 0 <= i < |ordered| ==> ordered[i].range.start >= 0)
      && (forall i, j :: 0 <= i < j < |ordered| ==> ordered[i].range.start <= ordered[j].range.start)
  {
    var ordered := Sort(ranges, OwnedLe);
    OwnedTotal();
    SortOrders(ranges, OwnedLe);
    ClashOrdered(ranges, ordered);
    forall i | 0 <= i < |ordered|
      ensures ordered[i].range.start >= 0
    {
      SortMember(ranges, OwnedLe, ordered[i]);
    }
    forall i, j | 0 <= i < j < |ordered|
      ensures ordered[i].range.start <= ordered[j].range.start
    {
      assert OwnedLe(ordered[i], ordered[j]);
    }
  }

  lemma NothingSwept(ordered: seq<OwnedRange>)
    ensures Swept(ordered, 0, -1, None, 0)
  {}

  lemma FoundClash(
    ordered: seq<OwnedRange>, k: nat, previousEnd: int, previousIdentity: Option<Identity>, furthest: nat)
    requires k < |ordered| && Swept(ordered, k, previousEnd, previousIdentity, furthest)
    requires 0 <= ordered[k].range.start < previousEnd && Some(ordered[k].identity) != previousIdentity
    ensures OrderedClash(ordered)
  {
    assert ordered[furthest].identity != ordered[k].identity;
  }

  lemma SweptClean(ordered: seq<OwnedRange>, previousEnd: int, previousIdentity: Option<Identity>, furthest: nat)
    requires Swept(ordered, |ordered|, previousEnd, previousIdentity, furthest)
    ensures !OrderedClash(ordered)
  {}

  // ----- holes

  function Unowned(values: seq<Measurement>): seq<Interval> {
    if values == [] then [] else values[0].ranges + Unowned(values[1..])
  }

  /** The first and the last number any range of any artifact touches. */
  ghost predicate Extent(values: seq<Measurement>, first: int, last: int) {
    && (exists i, p :: 0 <= i < |values| && 0 <= p < |values[i].ranges| && values[i].ranges[p].start == first)
    && (exists i, p :: 0 <= i < |values| && 0 <= p < |values[i].ranges| && values[i].ranges[p].end == last)
    && (forall i, p :: 0 <= i < |values| && 0 <= p < |values[i].ranges| ==>
          first <= values[i].ranges[p].start && values[i].ranges[p].end <= last)
  }

  ghost predicate InSomeRange(values: seq<Measurement>, x: int) {
    exists i, p :: 0 <= i < |values| && 0 <= p < |values[i].ranges| && values[i].ranges[p].Has(x)
  }

  /** Exactly the numbers some artifact has a record for. */
  ghost predicate Accounts(values: seq<Measurement>, covered: set<int>) {
    forall x :: x in covered <==> InSomeRange(values, x)
  }

  /** The numbers between the first and the last that no artifact accounts for. */
  ghost predicate HolesAre(values: seq<Measurement>, holes: int) {
    if forall i :: 0 <= i < |values| ==> values[i].ranges == [] then holes == 0
    else
      exists first, last, covered ::
        Extent(values, first, last) && Accounts(values, covered) && holes + |covered| == last - first
  }

  lemma {:induction false} UnownedAre(values: seq<Measurement>, range: Interval)
    ensures range in Unowned(values) <==>
      exists i, p :: 0 <= i < |values| && 0 <= p < |values[i].ranges| && values[i].ranges[p] == range
  {
    if values != [] {
      var rest := values[1..];
      UnownedAre(rest, range);
      if range in Unowned(rest) {
        var i, p :| 0 <= i < |rest| && 0 <= p < |rest[i].ranges| && rest[i].ranges[p] == range;
        assert values[i + 1].ranges[p] == range;
      }
      if range in values[0].ranges {
        var p :| 0 <= p < |values[0].ranges| && values[0].ranges[p] == range;
        assert values[0].ranges[p] == range;
      }
      if i, p :| 0 <= i < |values| && 0 <= p < |values[i].ranges| && values[i].ranges[p] == range {
        if i > 0 {
          assert rest[i - 1].ranges[p] == range;
        }
      }
    }
  }

  lemma HolesOfRanges(values: seq<Measurement>, holes: int)
    requires var intervals := Unowned(values);
      if intervals == [] then holes == 0
      else holes + |Union(intervals)| == LastEnd(intervals) - FirstStart(intervals)
    ensures HolesAre(values, holes)
  {
    hide Unowned, LastEnd, FirstStart, Union;
    var intervals := Unowned(values);
    if i :| 0 <= i < |values| && values[i].ranges != [] {
      UnownedAre(values, values[i].ranges[0]);
    }
    if intervals != [] {
      UnownedAre(values, intervals[0]);
      UnionAccounts(values);
      ExtremesExtend(values);
      assert Extent(values, FirstStart(intervals), LastEnd(intervals)) && Accounts(values, Union(intervals));
    }
  }

  lemma UnionAccounts(values: seq<Measurement>)
    ensures Accounts(values, Union(Unowned(values)))
  {
    hide Unowned, Union;
    var intervals := Unowned(values);
    forall x
      ensures x in Union(intervals) <==> InSomeRange(values, x)
    {
      InUnion(intervals, x);
      if k :| 0 <= k < |intervals| && intervals[k].Has(x) {
        UnownedAre(values, intervals[k]);
      }
      if i, p :| 0 <= i < |values| && 0 <= p < |values[i].ranges| && values[i].ranges[p].Has(x) {
        UnownedAre(values, values[i].ranges[p]);
      }
    }
  }

  lemma ExtremesExtend(values: seq<Measurement>)
    requires Unowned(values) != []
    ensures Extent(values, FirstStart(Unowned(values)), LastEnd(Unowned(values)))
  {
    hide Unowned, LastEnd, FirstStart;
    var intervals := Unowned(values);
    Extremes(intervals);
    var k :| 0 <= k < |intervals| && intervals[k].start == FirstStart(intervals);
    var l :| 0 <= l < |intervals| && intervals[l].end == LastEnd(intervals);
    UnownedAre(values, intervals[k]);
    UnownedAre(values, intervals[l]);
    forall i, p | 0 <= i < |values| && 0 <= p < |values[i].ranges|
      ensures FirstStart(intervals) <= values[i].ranges[p].start && values[i].ranges[p].end <= LastEnd(intervals)
    {
      UnownedAre(values, values[i].ranges[p]);
    }
  }

  function FirstStart(intervals: seq<Interval>): int
    requires intervals != []
  {
    if |intervals| == 1 then intervals[0].start
    else
      var rest := FirstStart(intervals[1..]);
      if intervals[0].start < rest then intervals[0].start else rest
  }

  function LastEnd(intervals: seq<Interval>): int
    requires intervals != []
  {
    if |intervals| == 1 then intervals[0].end
    else
      var rest := LastEnd(intervals[1..]);
      if intervals[0].end > rest then intervals[0].end else rest
  }

  lemma {:induction false} Extremes(intervals: seq<Interval>)
    requires intervals != []
    ensures forall i :: 0 <= i < |intervals| ==> FirstStart(intervals) <= intervals[i].start
    ensures forall i :: 0 <= i < |intervals| ==> intervals[i].end <= LastEnd(intervals)
    ensures exists i :: 0 <= i < |intervals| && intervals[i].start == FirstStart(intervals)
    ensures exists i :: 0 <= i < |intervals| && intervals[i].end == LastEnd(intervals)
  {
    assert intervals[0].start == FirstStart(intervals) || |intervals| > 1;
    if |intervals| > 1 {
      var rest := intervals[1..];
      Extremes(rest);
      assert forall i :: 1 <= i < |intervals| ==> intervals[i] == rest[i - 1];
      var i :| 0 <= i < |rest| && rest[i].start == FirstStart(rest);
      var j :| 0 <= j < |rest| && rest[j].end == LastEnd(rest);
      assert intervals[i + 1] == rest[i] && intervals[j + 1] == rest[j];
    } else {
      assert intervals[0].end == LastEnd(intervals);
    }
  }

  lemma HoleStep(seen: set<int>, previousEnd: int, latestStart: int, item: Interval)
    requires latestStart <= item.start <= item.end
    requires forall x :: x in seen ==> x < previousEnd
    requires forall x :: latestStart <= x < previousEnd ==> x in seen
    ensures
      var hole := if item.start > previousEnd then item.start - previousEnd else 0;
      var end := if item.end > previousEnd then item.end else previousEnd;
      && hole + |seen + item.Numbers()| == |seen| + (end - previousEnd)
      && (forall x :: x in seen + item.Numbers() ==> x < end)
      && (forall x :: item.start <= x < end ==> x in seen + item.Numbers())
  {
    var from := if item.start > previousEnd then item.start else previousEnd;
    var end := if item.end > from then item.end else from;
    assert seen + item.Numbers() == seen + Interval(from, end).Numbers();
    GrowBy(seen, from, end);
  }

  /** The sweep over `ordered[..k]`: holes and numbers seen tile the line up to the furthest end. */
  ghost predicate Tiled(ordered: seq<Interval>, k: nat, holes: int, previousEnd: int)
    requires 1 <= k <= |ordered|
  {
    && holes + |Union(ordered[..k])| == previousEnd - ordered[0].start
    && (forall x :: x in Union(ordered[..k]) ==> x < previousEnd)
    && (forall x :: ordered[k - 1].start <= x < previousEnd ==> x in Union(ordered[..k]))
    && (forall i :: 0 <= i < k ==> ordered[i].end <= previousEnd)
    && (exists i :: 0 <= i < k && ordered[i].end == previousEnd)
  }

  lemma TiledStarts(ordered: seq<Interval>)
    requires ordered != [] && ordered[0].start <= ordered[0].end
    ensures Tiled(ordered, 1, 0, ordered[0].end)
  {
    SpanSize(ordered[0].start, ordered[0].end);
    FirstUnion(ordered);
  }

  lemma TiledStep(ordered: seq<Interval>, k: nat, holes: int, previousEnd: int)
    requires 1 <= k < |ordered| && Tiled(ordered, k, holes, previousEnd)
    requires ordered[k - 1].start <= ordered[k].start <= ordered[k].end
    ensures
      var item := ordered[k];
      Tiled(ordered, k + 1,
            holes + (if item.start > previousEnd then item.start - previousEnd else 0),
            if item.end > previousEnd then item.end else previousEnd)
  {
    hide Union;
    NextUnion(ordered, k);
    HoleStep(Union(ordered[..k]), previousEnd, ordered[k - 1].start, ordered[k]);
    var i :| 0 <= i < k && ordered[i].end == previousEnd;
    assert ordered[i].end == previousEnd && ordered[k].end == ordered[k].end;
  }

  /** `_unproven_hole_records`: the holes and the ranges together tile the line from the first start to the last end. */
  method UnprovenHoleRecords(values: seq<Measurement>) returns (holes: int)
    requires WellFormed(values)
    ensures HolesAre(values, holes)
  {
    hide AllRanges, Unowned, Tiled, LastEnd, FirstStart, HolesAre, WellFormed, Union, Ascending;
    RangesWellFormed(values);
    var intervals := Unowned(values);
    var ordered := Ascending(intervals);
    AscendingFacts(intervals);
    if ordered == [] {
      HolesOfRanges(values, 0);
      return 0;
    }
    forall i | 0 <= i < |ordered|
      ensures ordered[i].start <= ordered[i].end
    {
      AscendingMembers(intervals, i);
    }
    var previousEnd := ordered[0].end;
    holes := 0;
    TiledStarts(ordered);
    for k := 1 to |ordered|
      invariant Tiled(ordered, k, holes, previousEnd)
    {
      var item := ordered[k];
      TiledStep(ordered, k, holes, previousEnd);
      holes := holes + if item.start > previousEnd then item.start - previousEnd else 0;
      previousEnd := if item.end > previousEnd then item.end else previousEnd;
    }
    TiledWhole(intervals, ordered, holes, previousEnd);
    HolesOfRanges(values, holes);
  }

  lemma TiledWhole(intervals: seq<Interval>, ordered: seq<Interval>, holes: int, previousEnd: int)
    requires multiset(intervals) == multiset(ordered) && Union(ordered) == Union(intervals) && ordered != []
    requires forall i, j :: 0 <= i < j < |ordered| ==> ordered[i].start <= ordered[j].start
    requires Tiled(ordered, |ordered|, holes, previousEnd)
    ensures intervals != [] && holes + |Union(intervals)| == LastEnd(intervals) - FirstStart(intervals)
  {
    assert ordered[..|ordered|] == ordered;
    SameExtremes(intervals, ordered, ordered[0].start, previousEnd);
  }

  lemma SameExtremes(intervals: seq<Interval>, ordered: seq<Interval>, first: int, last: int)
    requires multiset(intervals) == multiset(ordered) && ordered != []
    requires ordered[0].start == first && forall i :: 0 <= i < |ordered| ==> first <= ordered[i].start
    requires forall i :: 0 <= i < |ordered| ==> ordered[i].end <= last
    requires exists i :: 0 <= i < |ordered| && ordered[i].end == last
    ensures intervals != [] && first == FirstStart(intervals) && last == LastEnd(intervals)
  {
    assert |multiset(intervals)| == |multiset(ordered)|;
    Extremes(intervals);
    forall i | 0 <= i < |ordered|
      ensures FirstStart(intervals) <= ordered[i].start && ordered[i].end <= LastEnd(intervals)
    {
      assert ordered[i] in multiset(intervals);
    }
    var i :| 0 <= i < |intervals| && intervals[i].start == FirstStart(intervals);
    var j :| 0 <= j < |intervals| && intervals[j].end == LastEnd(intervals);
    assert intervals[i] in multiset(ordered) && intervals[j] in multiset(ordered);
  }

  // ----- one window

  const RECORD_SIZE: nat := 444

  /** Each artifact once, and as it was first measured. */
  ghost predicate FirstOfEach(unique: seq<Measurement>, measurements: seq<Measurement>) {
    && (forall i, j :: 0 <= i < j < |unique| ==> unique[i].identity != unique[j].identity)
    && ListsAll(unique, measurements)
    && (forall i :: 0 <= i < |unique| ==> IsFirst(unique[i], measurements))
  }

  ghost predicate Lists(unique: seq<Measurement>, identity: Identity) {
    exists i :: 0 <= i < |unique| && unique[i].identity == identity
  }

  ghost predicate ListsAll(unique: seq<Measurement>, measurements: seq<Measurement>) {
    forall k :: 0 <= k < |measurements| ==> Lists(unique, measurements[k].identity)
  }

  ghost predicate IsFirst(value: Measurement, measurements: seq<Measurement>) {
    exists k :: 0 <= k < |measurements| && measurements[k] == value
      && forall l :: 0 <= l < k ==> measurements[l].identity != value.identity
  }

  /** The measurements whose identity has not been seen before, in order. */
  ghost function Firsts(measurements: seq<Measurement>): seq<Measurement> {
    if measurements == [] then []
    else
      var n := |measurements| - 1;
      var before := Firsts(measurements[..n]);
      if Lists(before, measurements[n].identity) then before else before + [measurements[n]]
  }

  /** They are each artifact once, as it was first measured. */
  lemma {:induction false} FirstsOfEach(measurements: seq<Measurement>)
    ensures FirstOfEach(Firsts(measurements), measurements)
    decreases |measurements|
  {
    if measurements != [] {
      var k := |measurements| - 1;
      var before, unique := Firsts(measurements[..k]), Firsts(measurements);
      FirstsOfEach(measurements[..k]);
      assert measurements[..k + 1] == measurements;
      if !Lists(before, measurements[k].identity) {
        NowFirst(before, measurements, k);
        assert unique[|before|] == measurements[k];
      }
      forall identity | Lists(before, identity)
        ensures Lists(unique, identity)
      {
        var i :| 0 <= i < |before| && before[i].identity == identity;
        assert unique[i] == before[i];
      }
      assert ListsAll(unique, measurements[..k]);
      forall i | 0 <= i < |before|
        ensures IsFirst(before[i], measurements[..k + 1])
      {
        StillFirst(before[i], measurements, k);
      }
      NextListed(unique, measurements, k);
    }
  }

  /** Later measurements only append. */
  lemma {:induction false} FirstsInOrder(measurements: seq<Measurement>, k: nat)
    requires k <= |measurements|
    ensures Firsts(measurements[..k]) <= Firsts(measurements)
    decreases |measurements|
  {
    if k < |measurements| {
      var n := |measurements| - 1;
      FirstsInOrder(measurements[..n], k);
      assert measurements[..n][..k] == measurements[..k];
    } else {
      assert measurements[..k] == measurements;
    }
  }

  /** `_unique_measurements`. */
  method UniqueMeasurements(measurements: seq<Measurement>) returns (unique: seq<Measurement>)
    ensures unique == Firsts(measurements)
  {
    unique := [];
    var seen: set<Identity> := {};
    for k := 0 to |measurements|
      invariant forall identity :: identity in seen <==> Lists(unique, identity)
      invariant unique == Firsts(measurements[..k])
    {
      var item := measurements[k];
      assert measurements[..k + 1][..k] == measurements[..k];
      ghost var before := unique;
      if item.identity !in seen {
        unique := unique + [item];
        seen := seen + {item.identity};
        ListsOneMore(before, item);
      }
    }
    assert measurements[..|measurements|] == measurements;
  }

  lemma ListsOneMore(before: seq<Measurement>, item: Measurement)
    ensures forall identity :: Lists(before + [item], identity) <==> Lists(before, identity) || identity == item.identity
  {
    var unique := before + [item];
    forall identity
      ensures Lists(unique, identity) <==> Lists(before, identity) || identity == item.identity
    {
      if Lists(before, identity) {
        var i :| 0 <= i < |before| && before[i].identity == identity;
        assert unique[i] == before[i];
      }
      if Lists(unique, identity) {
        var i :| 0 <= i < |unique| && unique[i].identity == identity;
        assert i < |before| ==> before[i] == unique[i];
      }
      assert unique[|before|] == item;
    }
  }

  lemma NextListed(unique: seq<Measurement>, measurements: seq<Measurement>, k: nat)
    requires k < |measurements| && Lists(unique, measurements[k].identity)
    requires ListsAll(unique, measurements[..k])
    ensures ListsAll(unique, measurements[..k + 1])
  {
    var next := measurements[..k + 1];
    forall l | 0 <= l < |next|
      ensures Lists(unique, next[l].identity)
    {
      assert l < k ==> next[l] == measurements[..k][l];
    }
  }

  lemma NowFirst(before: seq<Measurement>, measurements: seq<Measurement>, k: nat)
    requires k < |measurements| && FirstOfEach(before, measurements[..k])
    requires forall i :: 0 <= i < |before| ==> before[i].identity != measurements[k].identity
    ensures IsFirst(measurements[k], measurements[..k + 1])
  {
    var next := measurements[..k + 1];
    assert next[k] == measurements[k];
    forall l | 0 <= l < k
      ensures next[l].identity != measurements[k].identity
    {
      assert next[l] == measurements[..k][l];
      assert Lists(before, measurements[..k][l].identity);
    }
  }

  lemma StillFirst(value: Measurement, measurements: seq<Measurement>, k: nat)
    requires k < |measurements| && IsFirst(value, measurements[..k])
    ensures IsFirst(value, measurements[..k + 1])
  {
    var m :| 0 <= m < |measurements[..k]| && measurements[..k][m] == value
      && forall l :: 0 <= l < m ==> measurements[..k][l].identity != value.identity;
    assert measurements[..k + 1][m] == value;
    assert forall l :: 0 <= l < m ==> measurements[..k + 1][l] == measurements[..k][l];
  }

  lemma {:induction false} RangesWellFormed(values: seq<Measurement>)
    requires WellFormed(values)
    ensures forall i :: 0 <= i < |AllRanges(values)| ==> AllRanges(values)[i].range.start >= 0
    ensures forall i :: 0 <= i < |Unowned(values)| ==> Unowned(values)[i].start <= Unowned(values)[i].end
  {
    if values != [] {
      RangesWellFormed(values[1..]);
    }
  }

  function TotalRecords(values: seq<Measurement>): nat {
    if values == [] then 0 else values[0].records + TotalRecords(values[1..])
  }

  function TotalRawBytes(values: seq<Measurement>): nat {
    if values == [] then 0 else values[0].rawBytes + TotalRawBytes(values[1..])
  }

  /** The totals are sums: one measurement more adds its own records and bytes. */
  lemma {:induction false} TotalsAdd(values: seq<Measurement>, value: Measurement)
    ensures TotalRecords([]) == 0 && TotalRawBytes([]) == 0
    ensures TotalRecords(values + [value]) == TotalRecords(values) + value.records
    ensures TotalRawBytes(values + [value]) == TotalRawBytes(values) + value.rawBytes
  {
    if values == [] {
      assert values + [value] == [value];
    } else {
      TotalsAdd(values[1..], value);
      assert (values + [value])[1..] == values[1..] + [value];
    }
  }

  datatype SpoolMetricsError = ArtifactsOverlap

  datatype WindowMetrics = WindowMetrics(
    artifacts: nat, records: nat, rawBytes: nat, unprovenRecords: int, unprovenRawBytes: int, unprovenShare: real)

  /** `_aggregate_window`: a repeated artifact counts once, clashing artifacts are refused, and what is left unproven
    * is exactly the gap between the ranges. */
  method AggregateWindow(measurements: seq<Measurement>)
    returns (result: Result<WindowMetrics, SpoolMetricsError>)
    requires WellFormed(measurements)
    ensures result.Err? <==> ArtifactsClash(Firsts(measurements))
    ensures result.Ok? ==>
      var metrics := result.value;
      var unique := Firsts(measurements);
      && metrics.artifacts == |unique|
      && metrics.records == TotalRecords(unique) && metrics.rawBytes == TotalRawBytes(unique)
      && HolesAre(unique, metrics.unprovenRecords)
      && metrics.unprovenRawBytes == 444 * metrics.unprovenRecords
      && (if metrics.records + metrics.unprovenRecords == 0 then metrics.unprovenShare == 0.0
          else
            metrics.unprovenShare * (metrics.records + metrics.unprovenRecords) as real == metrics.unprovenRecords as real)
  {
    hide ArtifactsClash, Firsts, FirstOfEach, HolesAre, TotalRecords, TotalRawBytes;
    var values := UniqueMeasurements(measurements);
    FirstsOfEach(measurements);
    UniqueWellFormed(values, measurements);
    var rejected := RejectOverlappingRanges(values);
    if rejected {
      return Err(ArtifactsOverlap);
    }
    var holes := UnprovenHoleRecords(values);
    var records := TotalRecords(values);
    var denominator := records + holes;
    var share := if denominator != 0 then holes as real / denominator as real else 0.0;
    result := Ok(WindowMetrics(|values|, records, TotalRawBytes(values), holes, holes * RECORD_SIZE, share));
  }

  lemma UniqueWellFormed(unique: seq<Measurement>, measurements: seq<Measurement>)
    requires FirstOfEach(unique, measurements) && WellFormed(measurements)
    ensures WellFormed(unique)
  {
    forall i, j | 0 <= i < |unique| && 0 <= j < |unique[i].ranges|
      ensures 0 <= unique[i].ranges[j].start <= unique[i].ranges[j].end
    {
      assert IsFirst(unique[i], measurements);
    }
  }
}
