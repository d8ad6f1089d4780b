/** What pagination keeps: the framing of every page and, through the reader, every packet. */
module OggFraming {
  import opened Bytes
  import opened OggPage
  import opened OggSegments
  import opened OggReader

  function Unlace(segments: seq<Segment>, pending: Option<bytes>): Assembly {
    if segments == [] then Assembly([], pending)
    else
      var packet := Started(pending) + segments[0].data;
      if !segments[0].Ends() then Unlace(segments[1..], Some(packet))
      else
        var later := Unlace(segments[1..], None);
        Assembly([packet] + later.packets, later.pending)
  }

  lemma {:induction false} BodyFromFront(segments: seq<Segment>)
    requires segments != []
    ensures Body(segments) == segments[0].data + Body(segments[1..])
    decreases |segments|
  {
    var n := |segments| - 1;
    if n > 0 {
      BodyFromFront(segments[..n]);
      assert segments[..n][1..] == segments[1..][..n - 1];
      ConcatAssociates(segments[0].data, Body(segments[1..][..n - 1]), segments[n].data);
    } else {
      assert segments[..0] == [] && segments[1..] == [];
    }
  }

  lemma {:induction false} BodyUnlaces(segments: seq<Segment>, pending: Option<bytes>)
    ensures Sum(Lacing(segments)) == |Body(segments)|
    ensures TakeBody(Lacing(segments), Body(segments), pending) == Unlace(segments, pending)
    decreases |segments|
  {
    BodyMatchesLacing(segments);
    if segments != [] {
      BodyFromFront(segments);
      assert Lacing(segments)[1..] == Lacing(segments[1..]);
      assert Body(segments)[..|segments[0].data|] == segments[0].data;
      assert Body(segments)[|segments[0].data|..] == Body(segments[1..]);
      var packet := Started(pending) + segments[0].data;
      BodyUnlaces(segments[1..], if segments[0].Ends() then None else Some(packet));
    }
  }

  lemma {:induction false} UnlaceAppend(a: seq<Segment>, b: seq<Segment>, pending: Option<bytes>)
    ensures
      var left := Unlace(a, pending);
      var right := Unlace(b, left.pending);
      Unlace(a + b, pending) == Assembly(left.packets + right.packets, right.pending)
  {
    if a == [] {
      assert a + b == b;
    } else {
      assert (a + b)[0] == a[0] && (a + b)[1..] == a[1..] + b;
      var packet := Started(pending) + a[0].data;
      if a[0].Ends() {
        UnlaceAppend(a[1..], b, None);
        var left := Unlace(a[1..], None);
        ConcatAssociates([packet], left.packets, Unlace(b, left.pending).packets);
      } else {
        UnlaceAppend(a[1..], b, Some(packet));
      }
    }
  }

  lemma {:induction false} UnlacePending(segments: seq<Segment>, pending: Option<bytes>)
    ensures Unlace(segments, pending).pending.Some? == if segments == [] then pending.Some? else EndsOpen(segments)
  {
    if |segments| > 0 {
      var packet := Started(pending) + segments[0].data;
      UnlacePending(segments[1..], if segments[0].Ends() then None else Some(packet));
    }
  }

  lemma {:induction false} UnlacePacket(payload: bytes, granule: nat, pending: Option<bytes>)
    ensures Unlace(PacketSegments(payload, granule), pending) == Assembly([Started(pending) + payload], None)
    decreases |payload|
  {
    if |payload| >= MAX_LACING_VALUE {
      var head, rest := payload[..MAX_LACING_VALUE], payload[MAX_LACING_VALUE..];
      var segments := PacketSegments(payload, granule);
      assert segments[1..] == PacketSegments(rest, granule);
      UnlacePacket(rest, granule, Some(Started(pending) + head));
      ConcatAssociates(Started(pending), head, rest);
      assert head + rest == payload;
    } else {
      var segments := PacketSegments(payload, granule);
      assert segments[1..] == [];
    }
  }

  function Payloads(packets: seq<Packet>): (p: seq<bytes>)
    ensures |p| == |packets|
  {
    seq(|packets|, i requires 0 <= i < |packets| => packets[i].payload)
  }

  /** Taking segments apart again loses and adds nothing. */
  lemma {:induction false} UnlaceSegments(packets: seq<Packet>)
    ensures Unlace(Segments(packets), None) == Assembly(Payloads(packets), None)
  {
    if packets != [] {
      var own := PacketSegments(packets[0].payload, packets[0].granule);
      UnlacePacket(packets[0].payload, packets[0].granule, None);
      UnlaceAppend(own, Segments(packets[1..]), None);
      UnlaceSegments(packets[1..]);
      assert Started(None) + packets[0].payload == packets[0].payload;
      assert Payloads(packets) == [packets[0].payload] + Payloads(packets[1..]);
    } else {
      assert Payloads(packets) == [];
    }
  }

  /** Wherever the page boundaries fall, the reader recovers what the segments hold. */
  lemma {:induction false} PagesReassemble(
    segments: seq<Segment>, flush: Flush, pending: Option<bytes>, first: bool, sequence: nat)
    ensures Reassemble(Pages(segments, flush, pending.Some?, first, sequence), pending) == Some(Unlace(segments, pending))
    decreases |segments|
  {
    if segments != [] {
      var cut := Cut(segments);
      var front, back := segments[..cut], segments[cut..];
      assert segments == front + back;
      BodyUnlaces(front, pending);
      UnlacePending(front, pending);
      UnlaceAppend(front, back, pending);
      PagesReassemble(back, flush, Unlace(front, pending).pending, false, sequence + 1);
    }
  }

  predicate EndsOnFullLacing(page: Page) {
    page.lacing != [] && page.lacing[|page.lacing| - 1] == MAX_LACING_VALUE
  }

  /** How many packets a page completes: its lacing values below 255. */
  function Completed(lacing: bytes): nat
    decreases |lacing|
  {
    if lacing == [] then 0
    else Completed(lacing[..|lacing| - 1]) + (if lacing[|lacing| - 1] < MAX_LACING_VALUE then 1 else 0)
  }

  function CompletedBy(pages: seq<Page>): nat
    decreases |pages|
  {
    if pages == [] then 0 else CompletedBy(pages[..|pages| - 1]) + Completed(pages[|pages| - 1].lacing)
  }

  /** The framing a page of one flush obeys (RFC 3533, section 6): numbering, serial, stream flags on the outer pages
    * if at all, the continuation flag set exactly when the page before it stopped inside a packet, and the bounds. */
  ghost predicate PageFramed(pages: seq<Page>, i: nat, flush: Flush, continued: bool, first: bool, sequence: nat)
    requires i < |pages|
  {
    && pages[i].sequence == sequence + i
    && pages[i].serial == flush.serial
    && pages[i].first == (flush.beginning && first && i == 0)
    && pages[i].last == (flush.ending && i == |pages| - 1)
    && pages[i].continued == (if i == 0 then continued else EndsOnFullLacing(pages[i - 1]))
    && 1 <= |pages[i].lacing| <= MAX_LACING_VALUES
    && Sum(pages[i].lacing) == |pages[i].body| <= PAGE_BODY_TARGET + MAX_LACING_VALUE
    && pages[i].granule <= UINT64_MAX
  }

  ghost predicate FlushFramed(pages: seq<Page>, flush: Flush, continued: bool, first: bool, sequence: nat) {
    forall i :: 0 <= i < |pages| ==> PageFramed(pages, i, flush, continued, first, sequence)
  }

  lemma {:induction false} PagesFramed(segments: seq<Segment>, flush: Flush, continued: bool, first: bool, sequence: nat)
    ensures
      var pages := Pages(segments, flush, continued, first, sequence);
      && FlushFramed(pages, flush, continued, first, sequence)
      && (segments == [] <==> pages == [])
      && (segments != [] ==> EndsOnFullLacing(pages[|pages| - 1]) == EndsOpen(segments))
    decreases |segments|
  {
    if segments != [] {
      var cut := Cut(segments);
      var front, back := segments[..cut], segments[cut..];
      CutBounds(segments);
      BodyMatchesLacing(front);
      PagesFramed(back, flush, EndsOpen(front), false, sequence + 1);
      assert Lacing(front)[cut - 1] == |front[cut - 1].data|;
      assert EndsOnFullLacing(PageOf(front, flush, continued, first, back == [], sequence)) == EndsOpen(front);
      FramedCons(PageOf(front, flush, continued, first, cut == |segments|, sequence),
                 Pages(back, flush, EndsOpen(front), false, sequence + 1), flush, continued, first, sequence);
    }
  }

  lemma FramedCons(page: Page, later: seq<Page>, flush: Flush, continued: bool, first: bool, sequence: nat)
    requires FlushFramed(later, flush, EndsOnFullLacing(page), false, sequence + 1)
    requires page.sequence == sequence && page.serial == flush.serial && page.continued == continued
    requires page.first == (flush.beginning && first) && page.last == (flush.ending && later == [])
    requires 1 <= |page.lacing| <= MAX_LACING_VALUES && page.granule <= UINT64_MAX
    requires Sum(page.lacing) == |page.body| <= PAGE_BODY_TARGET + MAX_LACING_VALUE
    ensures FlushFramed([page] + later, flush, continued, first, sequence)
  {
    hide Sum;
    forall i | 0 <= i < |[page] + later|
      ensures PageFramed([page] + later, i, flush, continued, first, sequence)
    {
      if i > 0 {
        assert PageFramed(later, i - 1, flush, EndsOnFullLacing(page), false, sequence + 1);
      }
    }
  }
}
