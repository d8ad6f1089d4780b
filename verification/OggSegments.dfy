/** Lacing and pagination as functions: a packet list is a stream of segments, and a page is the shortest run of
  * segments that fills it. */
module OggSegments {
  import opened Bytes
  import opened OggPage

  const PAGE_BODY_TARGET: nat := 4096

  datatype Packet = Packet(payload: bytes, granule: nat)

  /** At most 255 bytes of one packet; fewer than 255 when they end it. */
  datatype SegmentValue = Segment(data: bytes, granule: nat)
  {
    predicate Ends() {
      |data| < MAX_LACING_VALUE
    }
  }

  type Segment = s: SegmentValue | |s.data| <= MAX_LACING_VALUE witness Segment([], 0)

  /** `_lacing_values`. */
  function LacingValues(size: nat): (values: bytes)
    ensures |values| == size / MAX_LACING_VALUE + 1
  {
    seq(size / MAX_LACING_VALUE, _ => MAX_LACING_VALUE) + [size % MAX_LACING_VALUE]
  }

  function PacketSegments(payload: bytes, granule: nat): (segments: seq<Segment>)
    ensures segments != []
    decreases |payload|
  {
    if |payload| < MAX_LACING_VALUE then [Segment(payload, granule)]
    else [Segment(payload[..MAX_LACING_VALUE], granule)] + PacketSegments(payload[MAX_LACING_VALUE..], granule)
  }

  function Segments(packets: seq<Packet>): seq<Segment> {
    if packets == [] then [] else PacketSegments(packets[0].payload, packets[0].granule) + Segments(packets[1..])
  }

  function Lacing(segments: seq<Segment>): (lacing: bytes)
    ensures |lacing| == |segments|
  {
    seq(|segments|, i requires 0 <= i < |segments| => |segments[i].data|)
  }

  function Body(segments: seq<Segment>): bytes
    decreases |segments|
  {
    if segments == [] then [] else Body(segments[..|segments| - 1]) + segments[|segments| - 1].data
  }

  /** The granule of the last packet completed here, or -1. */
  function PageGranule(segments: seq<Segment>): int
    decreases |segments|
  {
    if segments == [] then -1
    else
      var last := segments[|segments| - 1];
      if last.Ends() then last.granule else PageGranule(segments[..|segments| - 1])
  }

  predicate Full(segments: seq<Segment>) {
    |segments| == MAX_LACING_VALUES || |Body(segments)| > PAGE_BODY_TARGET
  }

  /** How many segments the first page takes: up to the first that fills it, or all of them. */
  function Cut(segments: seq<Segment>, from: nat := 1): (cut: nat)
    requires 1 <= from <= |segments|
    ensures from <= cut <= |segments|
    ensures cut == |segments| || Full(segments[..cut])
    ensures forall k :: from <= k < cut ==> !Full(segments[..k])
    decreases |segments| - from
  {
    if from == |segments| || Full(segments[..from]) then from else Cut(segments, from + 1)
  }

  lemma {:induction false} CutIs(segments: seq<Segment>, from: nat, cut: nat)
    requires 1 <= from <= cut <= |segments|
    requires cut == |segments| || Full(segments[..cut])
    requires forall k :: from <= k < cut ==> !Full(segments[..k])
    ensures Cut(segments, from) == cut
    decreases cut - from
  {
    if from < cut {
      CutIs(segments, from + 1, cut);
    }
  }

  /** What the pages of one flush share. */
  datatype Flush = Flush(serial: nat, beginning: bool, ending: bool)

  function PageOf(segments: seq<Segment>, flush: Flush, continued: bool, first: bool, last: bool, sequence: nat): Page {
    Page(continued, flush.beginning && first, flush.ending && last,
         PageGranule(segments) % (UINT64_MAX + 1), flush.serial, sequence, Lacing(segments), Body(segments))
  }

  predicate EndsOpen(segments: seq<Segment>) {
    segments != [] && !segments[|segments| - 1].Ends()
  }

  /** The pages of one `_encode_pages` call. */
  function Pages(segments: seq<Segment>, flush: Flush, continued: bool, first: bool, sequence: nat): seq<Page>
    decreases |segments|
  {
    if segments == [] then []
    else
      var cut := Cut(segments);
      [PageOf(segments[..cut], flush, continued, first, cut == |segments|, sequence)]
      + Pages(segments[cut..], flush, EndsOpen(segments[..cut]), false, sequence + 1)
  }

  // ----- facts about segments

  lemma {:induction false} PacketSegmentCount(payload: bytes, granule: nat)
    ensures |PacketSegments(payload, granule)| == |LacingValues(|payload|)|
    decreases |payload|
  {
    if |payload| >= MAX_LACING_VALUE {
      PacketSegmentCount(payload[MAX_LACING_VALUE..], granule);
    }
  }

  lemma {:induction false} PacketSegmentAt(payload: bytes, granule: nat, j: nat)
    requires j < |LacingValues(|payload|)|
    ensures |PacketSegments(payload, granule)| == |LacingValues(|payload|)|
    ensures
      var value := LacingValues(|payload|)[j];
      && 255 * j + value <= |payload|
      && PacketSegments(payload, granule)[j] == Segment(payload[255 * j..255 * j + value], granule)
    decreases |payload|
  {
    PacketSegmentCount(payload, granule);
    if |payload| >= MAX_LACING_VALUE {
      var rest := payload[MAX_LACING_VALUE..];
      if j > 0 {
        PacketSegmentAt(rest, granule, j - 1);
        var value := LacingValues(|rest|)[j - 1];
        assert LacingValues(|payload|)[j] == value;
        assert rest[255 * (j - 1)..255 * (j - 1) + value] == payload[255 * j..255 * j + value];
      } else {
        PacketSegmentAt(rest, granule, 0);
      }
    }
  }

  lemma {:induction false} SegmentsAppend(a: seq<Packet>, b: seq<Packet>)
    ensures Segments(a + b) == Segments(a) + Segments(b)
  {
    if a == [] {
      assert a + b == b;
    } else {
      SegmentsAppend(a[1..], b);
      assert (a + b)[0] == a[0] && (a + b)[1..] == a[1..] + b;
      ConcatAssociates(PacketSegments(a[0].payload, a[0].granule), Segments(a[1..]), Segments(b));
    }
  }

  /** Every segment list ends with a completed packet. */
  lemma {:induction false} PacketSegmentsClose(payload: bytes, granule: nat)
    ensures var s := PacketSegments(payload, granule); s[|s| - 1].Ends()
    decreases |payload|
  {
    if |payload| >= MAX_LACING_VALUE {
      PacketSegmentsClose(payload[MAX_LACING_VALUE..], granule);
    }
  }

  lemma {:induction false} SegmentsClose(packets: seq<Packet>)
    ensures !EndsOpen(Segments(packets))
    ensures packets != [] ==> Segments(packets) != []
  {
    if packets != [] {
      PacketSegmentsClose(packets[0].payload, packets[0].granule);
      SegmentsClose(packets[1..]);
    }
  }

  lemma {:induction false} BodyMatchesLacing(segments: seq<Segment>)
    ensures Sum(Lacing(segments)) == |Body(segments)|
    decreases |segments|
  {
    if segments != [] {
      var n := |segments| - 1;
      BodyMatchesLacing(segments[..n]);
      SumAppend(Lacing(segments[..n]), segments[n]);
      assert Lacing(segments) == Lacing(segments[..n]) + [|segments[n].data|];
    }
  }

  lemma {:induction false} SumAppend(values: bytes, last: Segment)
    ensures Sum(values + [|last.data|]) == Sum(values) + |last.data|
  {
    if values == [] {
      assert values + [|last.data|] == [|last.data|];
    } else {
      SumAppend(values[1..], last);
      assert (values + [|last.data|])[1..] == values[1..] + [|last.data|];
    }
  }

  /** No page holds more than 255 segments, or more than 255 bytes past the target. */
  lemma {:induction false} CutBounds(segments: seq<Segment>)
    requires segments != []
    ensures 1 <= Cut(segments) <= MAX_LACING_VALUES
    ensures |Body(segments[..Cut(segments)])| <= PAGE_BODY_TARGET + MAX_LACING_VALUE
  {
    var cut := Cut(segments);
    var limit := if cut > MAX_LACING_VALUES then MAX_LACING_VALUES else cut;
    assert limit < cut ==> !Full(segments[..limit]);
    assert |segments[..limit]| == limit;
    if cut > 1 {
      assert !Full(segments[..cut - 1]);
      assert segments[..cut][..cut - 1] == segments[..cut - 1];
    } else {
      assert segments[..1][..0] == [];
    }
  }

  // ----- where pages break

  /** A page of 255 lacing values, or of more than 4096 body bytes, is closed. */
  predicate Closed(page: Page) {
    |page.lacing| == 255 || |page.body| > 4096
  }

  /** Its last segment closed it: without that one it was still open. */
  predicate OpenUntilLast(page: Page) {
    && 1 <= |page.lacing| <= 255
    && |page.body| - page.lacing[|page.lacing| - 1] <= 4096
  }

  /** Pages that break exactly where they close, and at their end. */
  ghost predicate BreakRight(pages: seq<Page>) {
    && (forall i :: 0 <= i < |pages| ==> OpenUntilLast(pages[i]))
    && (forall i :: 0 <= i < |pages| - 1 ==> Closed(pages[i]))
  }

  /** So do the pages of one flush. */
  lemma {:induction false} PagesBreak(segments: seq<Segment>, flush: Flush, continued: bool, first: bool, sequence: nat)
    ensures BreakRight(Pages(segments, flush, continued, first, sequence))
    decreases |segments|
  {
    if segments != [] {
      var cut := Cut(segments);
      PageBreaks(segments, flush, continued, first, cut == |segments|, sequence);
      PagesBreak(segments[cut..], flush, EndsOpen(segments[..cut]), false, sequence + 1);
      BreakCons(PageOf(segments[..cut], flush, continued, first, cut == |segments|, sequence),
                Pages(segments[cut..], flush, EndsOpen(segments[..cut]), false, sequence + 1));
    }
  }

  lemma BreakCons(page: Page, later: seq<Page>)
    requires OpenUntilLast(page) && BreakRight(later) && (later != [] ==> Closed(page))
    ensures BreakRight([page] + later)
  {}

  lemma PageBreaks(segments: seq<Segment>, flush: Flush, continued: bool, first: bool, last: bool, sequence: nat)
    requires segments != []
    ensures
      var page := PageOf(segments[..Cut(segments)], flush, continued, first, last, sequence);
      OpenUntilLast(page) && (Cut(segments) < |segments| ==> Closed(page))
  {
    hide PageGranule, EndsOpen;
    var cut := Cut(segments);
    CutBounds(segments);
    BodyWithoutLast(segments[..cut]);
    assert segments[..cut][..cut - 1] == segments[..cut - 1];
    if cut > 1 {
      assert !Full(segments[..cut - 1]);
    }
  }

  lemma BodyWithoutLast(segments: seq<Segment>)
    requires segments != []
    ensures var n := |segments| - 1;
      && Lacing(segments)[n] == |segments[n].data|
      && |Body(segments)| == |Body(segments[..n])| + Lacing(segments)[n]
  {}
}
