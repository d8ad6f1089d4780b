/** Which clock anchor owns a sequence number: lists of segments, overlaid, cut, and read point by point. */
module ClockSegments {
  import opened Bytes
  import opened Sorting

  datatype Confidence = Confirmed | Approximate

  datatype Anchor = Anchor(observationId: string, utcOffset: real, uncertainty: real, confidence: Confidence)

  datatype SegmentData = SegmentData(start: int, next: int, anchor: Anchor)
  {
    predicate Valid() {
      anchor.observationId != "" && start >= 0 && next > start && anchor.uncertainty >= 0.0
    }

    predicate Covers(sequence: int) {
      start <= sequence < next
    }
  }

  /** The constructor's check: every segment built below is proved to pass it. */
  type ClockSegment = s: SegmentData | s.Valid() witness SegmentData(0, 1, Anchor("a", 0.0, 0.0, Confirmed))

  datatype ClockSegmentError = Overlapping

  /** What the first segment covering `sequence` says about it. */
  function At(segments: seq<ClockSegment>, sequence: int): Option<Anchor> {
    if segments == [] then None
    else if segments[0].Covers(sequence) then Some(segments[0].anchor)
    else At(segments[1..], sequence)
  }

  predicate Apart(a: ClockSegment, b: ClockSegment) {
    a.next <= b.start || b.next <= a.start
  }

  ghost predicate AllApart(segments: seq<ClockSegment>, other: ClockSegment) {
    forall i :: 0 <= i < |segments| ==> Apart(segments[i], other)
  }

  ghost predicate Disjoint(segments: seq<ClockSegment>) {
    forall i, j :: 0 <= i < j < |segments| ==> Apart(segments[i], segments[j])
  }

  predicate StartsNoLater(a: ClockSegment, b: ClockSegment) {
    a.start <= b.start
  }

  /** `ClockSegmentMap.__post_init__`. */
  function ClockSegmentMap(segments: seq<ClockSegment>): Result<seq<ClockSegment>, ClockSegmentError> {
    var ordered := Sort(segments, StartsNoLater);
    if ordered != segments || exists i :: 0 <= i < |ordered| - 1 && ordered[i].next > ordered[i + 1].start
    then Err(Overlapping) else Ok(segments)
  }

  function Slice(segment: ClockSegment, start: int, end: int): ClockSegment
    requires 0 <= start < end
  {
    SegmentData(start, end, segment.anchor)
  }

  // ----- overlaying one segment

  /** What is left of `item` beside `incoming`. */
  function Remnants(item: ClockSegment, incoming: ClockSegment): seq<ClockSegment> {
    if item.next <= incoming.start || item.start >= incoming.next then [item]
    else
      (if item.start < incoming.start then [Slice(item, item.start, incoming.start)] else [])
      + (if item.next > incoming.next then [Slice(item, incoming.next, item.next)] else [])
  }

  function Carved(segments: seq<ClockSegment>, incoming: ClockSegment): seq<ClockSegment>
    decreases |segments|
  {
    if segments == [] then []
    else Carved(segments[..|segments| - 1], incoming) + Remnants(segments[|segments| - 1], incoming)
  }

  function Overlaid(segments: seq<ClockSegment>, incoming: ClockSegment): seq<ClockSegment> {
    Carved(segments, incoming) + [incoming]
  }

  method Overlay(segments: seq<ClockSegment>, incoming: ClockSegment) returns (output: seq<ClockSegment>)
    ensures output == Overlaid(segments, incoming)
  {
    output := [];
    for k := 0 to |segments|
      invariant output == Carved(segments[..k], incoming)
    {
      var item := segments[k];
      assert segments[..k + 1][..k] == segments[..k];
      ghost var before := output;
      if item.next <= incoming.start || item.start >= incoming.next {
        output := output + [item];
        continue;
      }
      if item.start < incoming.start {
        output := output + [Slice(item, item.start, incoming.start)];
      }
      if item.next > incoming.next {
        output := output + [Slice(item, incoming.next, item.next)];
      }
      assert output == before + Remnants(item, incoming);
    }
    assert segments[..|segments|] == segments;
    output := output + [incoming];
  }

  lemma {:induction false} AtAppend(a: seq<ClockSegment>, b: seq<ClockSegment>, sequence: int)
    ensures At(a + b, sequence) == if At(a, sequence).Some? then At(a, sequence) else At(b, sequence)
  {
    if a == [] {
      assert a + b == b;
    } else {
      assert (a + b)[1..] == a[1..] + b;
      AtAppend(a[1..], b, sequence);
    }
  }

  lemma RemnantsAt(item: ClockSegment, incoming: ClockSegment, sequence: int)
    ensures At(Remnants(item, incoming), sequence)
         == if item.Covers(sequence) && !incoming.Covers(sequence) then Some(item.anchor) else None
  {
    var left := if item.start < incoming.start then [Slice(item, item.start, incoming.start)] else [];
    var right := if item.next > incoming.next then [Slice(item, incoming.next, item.next)] else [];
    if !(item.next <= incoming.start || item.start >= incoming.next) {
      AtAppend(left, right, sequence);
    }
  }

  lemma CarvedNext(carved: seq<ClockSegment>, before: seq<ClockSegment>, item: ClockSegment, incoming: ClockSegment,
                   sequence: int)
    requires At(carved, sequence) == if incoming.Covers(sequence) then None else At(before, sequence)
    ensures At(carved + Remnants(item, incoming), sequence)
         == if incoming.Covers(sequence) then None else At(before + [item], sequence)
  {
    assert At([item], sequence) == if item.Covers(sequence) then Some(item.anchor) else None;
    hide At, Remnants;
    RemnantsAt(item, incoming, sequence);
    AtAppend(carved, Remnants(item, incoming), sequence);
    AtAppend(before, [item], sequence);
  }

  lemma {:induction false} CarvedAt(segments: seq<ClockSegment>, incoming: ClockSegment, sequence: int)
    ensures At(Carved(segments, incoming), sequence)
         == if incoming.Covers(sequence) then None else At(segments, sequence)
    decreases |segments|
  {
    if segments != [] {
      hide At, Remnants;
      var n := |segments| - 1;
      CarvedAt(segments[..n], incoming, sequence);
      CarvedNext(Carved(segments[..n], incoming), segments[..n], segments[n], incoming, sequence);
      assert segments == segments[..n] + [segments[n]];
    }
  }

  /** Overlaying rewrites exactly the sequences that `incoming` covers. */
  lemma OverlaidAt(segments: seq<ClockSegment>, incoming: ClockSegment, sequence: int)
    ensures At(Overlaid(segments, incoming), sequence)
         == if incoming.Covers(sequence) then Some(incoming.anchor) else At(segments, sequence)
  {
    CarvedAt(segments, incoming, sequence);
    AtAppend(Carved(segments, incoming), [incoming], sequence);
  }

  lemma DisjointAppend(a: seq<ClockSegment>, b: seq<ClockSegment>)
    requires Disjoint(a) && Disjoint(b)
    requires forall j :: 0 <= j < |b| ==> AllApart(a, b[j])
    ensures Disjoint(a + b)
  {
    forall i, j | 0 <= i < j < |a + b|
      ensures Apart((a + b)[i], (a + b)[j])
    {
      if i < |a| <= j {
        assert AllApart(a, b[j - |a|]);
      }
    }
  }

  /** Carving keeps clear of whatever the list kept clear of, and of `incoming`. */
  lemma {:induction false} CarvedApart(segments: seq<ClockSegment>, incoming: ClockSegment, other: ClockSegment)
    requires AllApart(segments, other) || other == incoming
    ensures AllApart(Carved(segments, incoming), other)
    decreases |segments|
  {
    if segments != [] {
      var n := |segments| - 1;
      CarvedApart(segments[..n], incoming, other);
      assert AllApart(segments, other) ==> Apart(segments[n], other);
    }
  }

  lemma {:induction false} CarvedDisjoint(segments: seq<ClockSegment>, incoming: ClockSegment)
    requires Disjoint(segments)
    ensures Disjoint(Carved(segments, incoming))
    decreases |segments|
  {
    if segments != [] {
      var n := |segments| - 1;
      var pieces := Remnants(segments[n], incoming);
      CarvedDisjoint(segments[..n], incoming);
      forall j | 0 <= j < |pieces|
        ensures AllApart(Carved(segments[..n], incoming), pieces[j])
      {
        assert AllApart(segments[..n], segments[n]);
        assert AllApart(segments[..n], pieces[j]);
        CarvedApart(segments[..n], incoming, pieces[j]);
      }
      DisjointAppend(Carved(segments[..n], incoming), pieces);
    }
  }

  lemma OverlaidDisjoint(segments: seq<ClockSegment>, incoming: ClockSegment)
    requires Disjoint(segments)
    ensures Disjoint(Overlaid(segments, incoming))
  {
    CarvedDisjoint(segments, incoming);
    CarvedApart(segments, incoming, incoming);
    DisjointAppend(Carved(segments, incoming), [incoming]);
  }

  // ----- putting a disjoint list in order

  lemma {:induction false} InsertAt(segments: seq<ClockSegment>, x: ClockSegment, sequence: int)
    requires AllApart(segments, x)
    ensures At(Insert(segments, x, StartsNoLater), sequence) == At(segments + [x], sequence)
  {
    if segments == [] {
    } else if StartsNoLater(segments[0], x) {
      InsertAt(segments[1..], x, sequence);
      assert (segments + [x])[1..] == segments[1..] + [x];
    } else {
      AtAppend(segments, [x], sequence);
      if x.Covers(sequence) {
        OneOwner(segments, x, sequence);
      }
      assert ([x] + segments)[1..] == segments;
    }
  }

  lemma {:induction false} InsertDisjoint(segments: seq<ClockSegment>, x: ClockSegment)
    requires Disjoint(segments) && AllApart(segments, x)
    ensures Disjoint(Insert(segments, x, StartsNoLater))
  {
    if segments == [] {
    } else if StartsNoLater(segments[0], x) {
      var rest := Insert(segments[1..], x, StartsNoLater);
      InsertDisjoint(segments[1..], x);
      InsertMembers(segments[1..], x, StartsNoLater);
      forall j | 0 <= j < |rest|
        ensures AllApart([segments[0]], rest[j])
      {
        assert rest[j] in multiset(rest);
        assert rest[j] == x || rest[j] in segments[1..];
      }
      DisjointAppend([segments[0]], rest);
    } else {
      forall j | 0 <= j < |segments|
        ensures AllApart([x], segments[j])
      {}
      DisjointAppend([x], segments);
    }
  }

  lemma {:induction false} OneOwner(segments: seq<ClockSegment>, x: ClockSegment, sequence: int)
    requires AllApart(segments, x) && x.Covers(sequence)
    ensures At(segments, sequence) == None
  {
    if segments != [] {
      assert Apart(segments[0], x);
      OneOwner(segments[1..], x, sequence);
    }
  }

  lemma {:induction false} SortAt(segments: seq<ClockSegment>, sequence: int)
    requires Disjoint(segments)
    ensures Disjoint(Sort(segments, StartsNoLater))
    ensures At(Sort(segments, StartsNoLater), sequence) == At(segments, sequence)
    decreases |segments|
  {
    if segments != [] {
      var n := |segments| - 1;
      var front, x := segments[..n], segments[n];
      var sorted := Sort(front, StartsNoLater);
      SortAt(front, sequence);
      StartsTotal();
      forall i | 0 <= i < |sorted|
        ensures Apart(sorted[i], x)
      {
        SortMember(front, StartsNoLater, sorted[i]);
      }
      InsertAt(sorted, x, sequence);
      InsertDisjoint(sorted, x);
      AtAppend(sorted, [x], sequence);
      AtAppend(front, [x], sequence);
      assert segments == front + [x];
    }
  }

  lemma StartsTotal()
    ensures TotalOrder(StartsNoLater)
  {}

  /** A disjoint list, once sorted, always passes the ordered non-overlap check. */
  lemma SortedMapIsValid(segments: seq<ClockSegment>)
    requires Disjoint(segments)
    ensures ClockSegmentMap(Sort(segments, StartsNoLater)) == Ok(Sort(segments, StartsNoLater))
  {
    var sorted := Sort(segments, StartsNoLater);
    StartsTotal();
    SortOrders(segments, StartsNoLater);
    SortFixes(sorted, StartsNoLater);
    SortAt(segments, 0);
  }

  /** Exactly the disjoint lists in ascending order pass. */
  lemma MapAccepts(segments: seq<ClockSegment>)
    ensures ClockSegmentMap(segments).Ok? <==> Disjoint(segments) && Ordered(segments, StartsNoLater)
  {
    StartsTotal();
    if ClockSegmentMap(segments).Ok? {
      SortOrders(segments, StartsNoLater);
      forall i, j | 0 <= i < j < |segments|
        ensures Apart(segments[i], segments[j])
      {
        assert segments[i].next <= segments[i + 1].start;
        assert StartsNoLater(segments[i + 1], segments[j]) || i + 1 == j;
      }
    }
    if Disjoint(segments) && Ordered(segments, StartsNoLater) {
      SortFixes(segments, StartsNoLater);
      SortedMapIsValid(segments);
    }
  }

  // ----- reading

  /** `ClockSegmentMap.utc_for`. */
  method UtcFor(segments: seq<ClockSegment>, sequence: int, rawTimestamp: int) returns (utc: Option<real>)
    ensures utc == match At(segments, sequence)
                   case None => None
                   case Some(anchor) => Some(rawTimestamp as real + anchor.utcOffset)
  {
    ghost var all := At(segments, sequence);
    for k := 0 to |segments|
      invariant At(segments[k..], sequence) == all
    {
      if segments[k].Covers(sequence) {
        return Some(rawTimestamp as real + segments[k].anchor.utcOffset);
      }
      assert segments[k..][1..] == segments[k + 1..];
    }
    return None;
  }

  /** In an accepted map at most one segment covers a sequence, and it is the one that answers. */
  lemma UniqueOwner(segments: seq<ClockSegment>, i: nat, sequence: int)
    requires ClockSegmentMap(segments).Ok? && i < |segments| && segments[i].Covers(sequence)
    ensures At(segments, sequence) == Some(segments[i].anchor)
    ensures forall j :: 0 <= j < |segments| && segments[j].Covers(sequence) ==> j == i
  {
    MapAccepts(segments);
    assert segments == segments[..i] + ([segments[i]] + segments[i + 1..]);
    OneOwner(segments[..i], segments[i], sequence);
    AtAppend(segments[..i], [segments[i]] + segments[i + 1..], sequence);
  }
}
