/** `_encode_pages`: packets go in, finished pages come out, one segment at a time. */
module OggEncoder {
  import opened Bytes
  import opened OggPage
  import opened OggSegments

  lemma CutWires(remaining: seq<Segment>, flush: Flush, continued: bool, first: bool, sequence: nat)
    requires remaining != []
    ensures
      var cut := Cut(remaining);
      Wires(Pages(remaining, flush, continued, first, sequence))
      == [PageOf(remaining[..cut], flush, continued, first, cut == |remaining|, sequence).Wire()]
         + Wires(Pages(remaining[cut..], flush, EndsOpen(remaining[..cut]), false, sequence + 1))
  {
    hide PageGranule, Body, Full, Page.Wire, Sum, Lacing;
    var cut := Cut(remaining);
    var page := PageOf(remaining[..cut], flush, continued, first, cut == |remaining|, sequence);
    var later := Pages(remaining[cut..], flush, EndsOpen(remaining[..cut]), false, sequence + 1);
    WiresAppend([page], later);
    assert Wires([page]) == [page.Wire()];
  }

  lemma LacingLength(segments: seq<Segment>)
    ensures |Lacing(segments)| == |segments|
    ensures segments != [] ==> Lacing(segments) != []
  {}

  /** The variables that `_encode_pages` shares with its inner `emit`. */
  class PageBuilder {
    const flush: Flush
    var pages: seq<bytes>
    var lacing: bytes
    var body: bytes
    var continuedAtStart: bool
    var pageGranule: int
    var firstPage: bool
    var sequence: nat

    constructor (flush: Flush, sequence: nat)
      ensures this.flush == flush && this.sequence == sequence
      ensures pages == [] && lacing == [] && body == [] && pageGranule == -1 && firstPage && !continuedAtStart
    {
      this.flush := flush;
      this.sequence := sequence;
      pages, lacing, body := [], [], [];
      continuedAtStart, pageGranule, firstPage := false, -1, true;
    }

    /** The open page holds exactly `segments`. */
    ghost predicate Holds(segments: seq<Segment>)
      reads this
    {
      lacing == Lacing(segments) && body == Body(segments) && pageGranule == PageGranule(segments)
    }

    method Emit(finalPacketCompleted: bool) returns (error: Option<OggError>)
      modifies this
      ensures continuedAtStart == old(continuedAtStart)
      ensures error.Some? <==>
        old(lacing == [] || |lacing| > MAX_LACING_VALUES || Sum(lacing) != |body|
            || flush.serial > UINT32_MAX || sequence > UINT32_MAX)
      ensures error.Some? ==>
        error.value == if old(lacing == [] || |lacing| > MAX_LACING_VALUES || Sum(lacing) != |body|)
                       then InvalidSegmentation else FieldOverflow
      ensures error.Some? ==> unchanged(this)
      ensures error.None? ==>
        && Holds([])
        && !firstPage
        && sequence == old(sequence) + 1
        && pages == old(pages) + [Page(old(continuedAtStart), flush.beginning && old(firstPage),
                                       flush.ending && finalPacketCompleted,
                                       old(pageGranule) % (UINT64_MAX + 1), flush.serial, old(sequence),
                                       old(lacing), old(body)).Wire()]
    {
      var encoded := EncodePage(
        continuedAtStart, flush.beginning && firstPage, flush.ending && finalPacketCompleted,
        pageGranule, flush.serial, sequence, lacing, body);
      if encoded.Err? {
        return Some(encoded.error);
      }
      pages := pages + [encoded.value];
      sequence := sequence + 1;
      firstPage := false;
      lacing, body := [], [];
      pageGranule := -1;
      return None;
    }

    /** Closing the open page: it is the page that `Pages` cuts from the front of the remaining segments. */
    method EmitPage(finalPacketCompleted: bool, ghost remaining: seq<Segment>, ghost cut: nat)
      returns (error: Option<OggError>)
      requires 1 <= cut <= |remaining| && cut == Cut(remaining)
      requires Holds(remaining[..cut])
      requires finalPacketCompleted == (cut == |remaining|)
      modifies this
      ensures error.Some? <==> flush.serial > UINT32_MAX || old(sequence) > UINT32_MAX
      ensures error.Some? ==> error.value == FieldOverflow && unchanged(this)
      ensures error.None? ==>
        && Holds([])
        && continuedAtStart == old(continuedAtStart)
        && !firstPage
        && sequence == old(sequence) + 1
        && |pages| == old(|pages|) + 1
        && pages + Wires(Pages(remaining[cut..], flush, EndsOpen(remaining[..cut]), false, sequence))
           == old(pages) + Wires(Pages(remaining, flush, old(continuedAtStart), old(firstPage), old(sequence)))
    {
      hide PageGranule, Body, Full, Page.Wire, Sum, Lacing, Pages, Wires;
      CutBounds(remaining);
      BodyMatchesLacing(remaining[..cut]);
      LacingLength(remaining[..cut]);
      CutWires(remaining, flush, continuedAtStart, firstPage, sequence);
      error := Emit(finalPacketCompleted);
    }

    /** `all[..start]` is out in finished pages, `taken` more segments are on the open page, and finishing that page
      * and the rest would give `target`. */
    ghost predicate Progress(all: seq<Segment>, start: nat, taken: nat, target: seq<Page>, origin: nat)
      reads this
    {
      && start + taken <= |all|
      && Holds(all[start..][..taken])
      && (forall k :: 1 <= k <= taken ==> !Full(all[start..][..k]))
      && continuedAtStart == EndsOpen(all[..start])
      && firstPage == (start == 0)
      && pages + Wires(Pages(all[start..], flush, continuedAtStart, firstPage, sequence)) == Wires(target)
      && sequence == origin + |pages|
      && (pages == [] || sequence <= UINT32_MAX + 1)
    }

    method AddSegment(value: byte, data: bytes, granule: nat, ghost remaining: seq<Segment>, ghost taken: nat)
      requires taken < |remaining| && |data| == value && remaining[taken] == Segment(data, granule)
      requires Holds(remaining[..taken])
      modifies `lacing, `body, `pageGranule
      ensures Holds(remaining[..taken + 1])
    {
      TakeOne(remaining, taken);
      lacing := lacing + [value];
      body := body + data;
      var packetCompleted := value < MAX_LACING_VALUE;
      pageGranule := if packetCompleted then granule else pageGranule;
    }

    /** One turn of the inner loop: a lacing value and its bytes join the page, which goes out once it is full. */
    method TakeSegment(value: byte, data: bytes, granule: nat, isFinalPacket: bool,
                       ghost all: seq<Segment>, ghost start: nat, ghost taken: nat,
                       ghost target: seq<Page>, ghost origin: nat)
      returns (error: Option<OggError>, ghost newStart: nat, ghost newTaken: nat)
      requires flush.serial <= UINT32_MAX
      requires Progress(all, start, taken, target, origin)
      requires start + taken < |all| && |data| == value && all[start + taken] == Segment(data, granule)
      requires (isFinalPacket && value < MAX_LACING_VALUE) == (start + taken + 1 == |all|)
      modifies this
      ensures error.None? ==> newStart + newTaken == start + taken + 1 && Progress(all, newStart, newTaken, target, origin)
      ensures error.Some? ==> error.value == FieldOverflow && TooManyPages(target, origin)
    {
      hide Pages, Page.Wire, Wires, PageGranule, Body, Lacing;
      error, newStart, newTaken := None, start, taken + 1;
      ghost var remaining := all[start..];
      FullOrNot(remaining[..taken]);
      if |lacing| == MAX_LACING_VALUES {
        assert false;  // the page went out when it reached 255 values
      }
      AddSegment(value, data, granule, remaining, taken);
      FullAtCut(remaining, taken);
      if |lacing| == MAX_LACING_VALUES || |body| > PAGE_BODY_TARGET {
        error := EmitPage(isFinalPacket && value < MAX_LACING_VALUE, remaining, taken + 1);
        if error.Some? {
          PagesRemain(pages, remaining, flush, continuedAtStart, firstPage, sequence, target);
          return;
        }
        continuedAtStart := value >= MAX_LACING_VALUE;
        newStart, newTaken := start + taken + 1, 0;
        NextPage(all, start, taken);
      }
    }

    /** One turn of the outer loop: the lacing values of a packet, each with its slice of the payload. */
    method TakePacket(packet: Packet, isFinalPacket: bool,
                      ghost all: seq<Segment>, ghost start: nat, ghost taken: nat,
                      ghost target: seq<Page>, ghost origin: nat)
      returns (error: Option<OggError>, ghost newStart: nat, ghost newTaken: nat)
      requires flush.serial <= UINT32_MAX
      requires Progress(all, start, taken, target, origin)
      requires
        var own := PacketSegments(packet.payload, packet.granule);
        && start + taken + |own| <= |all|
        && (forall j :: 0 <= j < |own| ==> all[start + taken + j] == own[j])
        && (isFinalPacket <==> start + taken + |own| == |all|)
      modifies this
      ensures error.None? ==>
        && newStart + newTaken == start + taken + |PacketSegments(packet.payload, packet.granule)|
        && Progress(all, newStart, newTaken, target, origin)
      ensures error.Some? ==> error.value == FieldOverflow && TooManyPages(target, origin)
    {
      hide Pages, Page.Wire, Wires, PageGranule, Body, Lacing, Progress, PacketSegments;
      error, newStart, newTaken := None, start, taken;
      var values := LacingValues(|packet.payload|);
      var payloadOffset: nat := 0;
      var valueIndex := 0;
      PacketSegmentCount(packet.payload, packet.granule);
      ProgressBound(all, start, taken, target, origin);
      while valueIndex < |values|
        invariant 0 <= valueIndex <= |values|
        invariant error.None? && newStart + newTaken == start + taken + valueIndex
        invariant Progress(all, newStart, newTaken, target, origin)
        invariant payloadOffset == if valueIndex < |values| then 255 * valueIndex else |packet.payload|
      {
        var value := values[valueIndex];
        PacketSegmentAt(packet.payload, packet.granule, valueIndex);
        error, newStart, newTaken := TakeSegment(
          value, packet.payload[payloadOffset..payloadOffset + value], packet.granule, isFinalPacket,
          all, newStart, newTaken, target, origin);
        if error.Some? {
          return;
        }
        payloadOffset := payloadOffset + value;
        valueIndex := valueIndex + 1;
      }
      if payloadOffset != |packet.payload| {
        assert false;  // the lacing values add up to the payload
      }
    }

    lemma ProgressBound(all: seq<Segment>, start: nat, taken: nat, target: seq<Page>, origin: nat)
      requires Progress(all, start, taken, target, origin)
      ensures start + taken <= |all|
    {}

    /** Before the first packet nothing is out. */
    lemma ProgressStarts(all: seq<Segment>, target: seq<Page>)
      requires pages == [] && lacing == [] && body == [] && pageGranule == -1 && firstPage && !continuedAtStart
      requires target == Pages(all, flush, false, true, sequence)
      ensures Progress(all, 0, 0, target, sequence)
    {
      assert all[0..] == all && all[..0] == [];
    }

    /** The closing lines: a page still open after the last packet goes out. */
    method Finish(ghost all: seq<Segment>, ghost start: nat, ghost taken: nat, ghost target: seq<Page>, ghost origin: nat)
      returns (error: Option<OggError>)
      requires flush.serial <= UINT32_MAX
      requires Progress(all, start, taken, target, origin) && start + taken == |all|
      modifies this
      ensures error.None? ==>
        pages == Wires(target) && sequence == origin + |target| && !TooManyPages(target, origin)
      ensures error.Some? ==> error.value == FieldOverflow && TooManyPages(target, origin)
    {
      hide Page.Wire, PageGranule, Body;
      error := None;
      ghost var remaining := all[start..];
      if lacing != [] {
        CutIs(remaining, 1, taken);
        error := EmitPage(true, remaining, taken);
        if error.Some? {
          PagesRemain(pages, remaining, flush, continuedAtStart, firstPage, sequence, target);
          return;
        }
        assert remaining[taken..] == [];
      }
    }
  }

  predicate TooManyPages(pages: seq<Page>, origin: nat) {
    pages != [] && origin + |pages| > UINT32_MAX + 1
  }

  lemma TakeOne(remaining: seq<Segment>, taken: nat)
    requires taken < |remaining|
    ensures Lacing(remaining[..taken + 1]) == Lacing(remaining[..taken]) + [|remaining[taken].data|]
    ensures Body(remaining[..taken + 1]) == Body(remaining[..taken]) + remaining[taken].data
    ensures PageGranule(remaining[..taken + 1])
         == if remaining[taken].Ends() then remaining[taken].granule else PageGranule(remaining[..taken])
  {
    assert remaining[..taken + 1][..taken] == remaining[..taken];
  }

  /** A page that fills up with its next segment is cut there. */
  lemma FullAtCut(remaining: seq<Segment>, taken: nat)
    requires taken < |remaining|
    requires forall k :: 1 <= k <= taken ==> !Full(remaining[..k])
    ensures |Lacing(remaining[..taken + 1])| == taken + 1
    ensures Full(remaining[..taken + 1]) ==> Cut(remaining) == taken + 1
    ensures !Full(remaining[..taken + 1]) ==> forall k :: 1 <= k <= taken + 1 ==> !Full(remaining[..k])
  {
    if Full(remaining[..taken + 1]) {
      CutIs(remaining, 1, taken + 1);
    }
  }

  lemma FullOrNot(segments: seq<Segment>)
    ensures |Lacing(segments)| == MAX_LACING_VALUES ==> Full(segments) && |segments| >= 1
  {}

  lemma NextPage(all: seq<Segment>, start: nat, taken: nat)
    requires start + taken < |all|
    ensures all[start..][taken + 1..] == all[start + taken + 1..]
    ensures all[start + taken + 1..][..0] == []
    ensures EndsOpen(all[start..][..taken + 1]) == EndsOpen(all[..start + taken + 1]) == !all[start + taken].Ends()
  {}

  /** While segments remain, at least one page is still to come. */
  lemma PagesRemain(
    pages: seq<bytes>, remaining: seq<Segment>, flush: Flush, continued: bool, first: bool, sequence: nat, target: seq<Page>)
    requires remaining != []
    requires pages + Wires(Pages(remaining, flush, continued, first, sequence)) == Wires(target)
    ensures |target| > |pages|
  {
    assert |pages + Wires(Pages(remaining, flush, continued, first, sequence))| == |target|;
  }

  datatype PageBatch = PageBatch(encoded: seq<bytes>, nextSequence: nat)

  method EncodePages(packets: seq<Packet>, flush: Flush, sequence: nat) returns (result: Result<PageBatch, OggError>)
    requires flush.serial <= UINT32_MAX
    ensures
      var pages := Pages(Segments(packets), flush, false, true, sequence);
      && (result.Ok? <==> !TooManyPages(pages, sequence))
      && (result.Ok? ==> result.value == PageBatch(Wires(pages), sequence + |pages|))
    ensures result.Err? ==> result.error == FieldOverflow
  {
    hide *;
    var builder := new PageBuilder(flush, sequence);
    ghost var all := Segments(packets);
    ghost var target := Pages(all, flush, false, true, sequence);
    ghost var start: nat, taken: nat := 0, 0;
    builder.ProgressStarts(all, target);
    NoSegments(packets);
    var packetIndex := 0;
    while packetIndex < |packets|
      invariant 0 <= packetIndex <= |packets|
      invariant fresh(builder) && builder.flush == flush
      invariant builder.Progress(all, start, taken, target, sequence)
      invariant start + taken == |Segments(packets[..packetIndex])|
    {
      PacketPlace(packets, packetIndex);
      var error;
      error, start, taken := builder.TakePacket(
        packets[packetIndex], packetIndex == |packets| - 1, all, start, taken, target, sequence);
      if error.Some? {
        return Err(error.value);
      }
      packetIndex := packetIndex + 1;
    }
    assert packets[..packetIndex] == packets;
    var error := builder.Finish(all, start, taken, target, sequence);
    if error.Some? {
      return Err(error.value);
    }
    result := Ok(PageBatch(builder.pages, builder.sequence));
  }

  lemma NoSegments(packets: seq<Packet>)
    ensures |Segments(packets[..0])| == 0
  {}

  /** Where the segments of one packet stand in the segments of all. */
  lemma PacketPlace(packets: seq<Packet>, index: nat)
    requires index < |packets|
    ensures
      var base := |Segments(packets[..index])|;
      var own := PacketSegments(packets[index].payload, packets[index].granule);
      && Segments(packets[..index + 1]) == Segments(packets[..index]) + own
      && base + |own| <= |Segments(packets)|
      && Segments(packets)[base..base + |own|] == own
      && (forall j :: 0 <= j < |own| ==> Segments(packets)[base + j] == own[j])
      && (index == |packets| - 1 <==> base + |own| == |Segments(packets)|)
  {
    var own := PacketSegments(packets[index].payload, packets[index].granule);
    var before, after := packets[..index], packets[index + 1..];
    assert packets == before + ([packets[index]] + after);
    assert packets[..index + 1] == before + [packets[index]];
    assert Segments([packets[index]]) == own;
    SegmentsAppend(before, [packets[index]] + after);
    SegmentsAppend(before, [packets[index]]);
    SegmentsClose(after);
    assert Segments([packets[index]] + after) == own + Segments(after);
  }
}
