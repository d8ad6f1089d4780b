/** What a reader may rely on in every stream the collector writes. */
module OggTheorems {
  import opened Bytes
  import opened OggPage
  import opened OggSegments
  import opened OggReader
  import opened OggFraming
  import opened OggStream

  /** A closed stretch of pages: framed like one flush that starts on a fresh packet, with no packet left open. */
  ghost predicate Stretch(pages: seq<Page>, flush: Flush, sequence: nat) {
    && pages != []
    && !EndsOnFullLacing(pages[|pages| - 1])
    && FlushFramed(pages, flush, false, true, sequence)
  }

  lemma StretchAppend(a: seq<Page>, b: seq<Page>, serial: nat, beginning: bool, ending: bool, sequence: nat)
    requires Stretch(a, Flush(serial, beginning, false), sequence)
    requires Stretch(b, Flush(serial, false, ending), sequence + |a|)
    ensures Stretch(a + b, Flush(serial, beginning, ending), sequence)
  {
    hide Sum;
    assert (a + b)[|a + b| - 1] == b[|b| - 1];
    forall i | 0 <= i < |a + b|
      ensures PageFramed(a + b, i, Flush(serial, beginning, ending), false, true, sequence)
    {
      if i < |a| {
        assert PageFramed(a, i, Flush(serial, beginning, false), false, true, sequence);
      } else {
        assert PageFramed(b, i - |a|, Flush(serial, false, ending), false, true, sequence + |a|);
      }
    }
  }

  lemma StretchPage(pages: seq<Page>, i: nat, flush: Flush, sequence: nat)
    requires Stretch(pages, flush, sequence) && i < |pages|
    ensures PageFramed(pages, i, flush, false, true, sequence)
  {}

  lemma FlushStretch(packets: seq<Packet>, flush: Flush, sequence: nat)
    requires packets != []
    ensures Stretch(Pages(Segments(packets), flush, false, true, sequence), flush, sequence)
  {
    hide Pages, Segments, Sum;
    SegmentsClose(packets);
    PagesFramed(Segments(packets), flush, false, true, sequence);
  }

  lemma {:induction false} AudioStretch(config: OggOpusConfig, packets: seq<bytes>, index: nat, serial: nat, sequence: nat)
    requires config.packetsPerFlush > 0 && packets != []
    ensures Stretch(AudioPages(config, packets, index, serial, sequence), Flush(serial, false, true), sequence)
    decreases |packets|
  {
    hide Pages, Segments, Stretch;
    var n := Min(config.packetsPerFlush, |packets|);
    var batch := Stamp(packets[..n], index, config.packetSamples);
    var flush := Flush(serial, false, n == |packets|);
    var pages := Pages(Segments(batch), flush, false, true, sequence);
    FlushStretch(batch, flush, sequence);
    if n < |packets| {
      AudioStretch(config, packets[n..], index + n, serial, sequence + |pages|);
      StretchAppend(pages, AudioPages(config, packets[n..], index + n, serial, sequence + |pages|),
                    serial, false, true, sequence);
    } else {
      NoAudio(config, index + n, serial, sequence + |pages|);
      assert packets[n..] == [] && pages + [] == pages;
    }
  }

  /** Section 6 of RFC 3533 over the whole stream: numbering from zero, beginning-of-stream on the first page only,
    * end-of-stream on the last only, continuation flags that match the lacing, and pages within their bounds. */
  lemma StreamIsFramed(config: OggOpusConfig, packets: seq<bytes>, serial: nat)
    requires config.Valid() && packets != []
    ensures Stretch(StreamPages(config, packets, serial), Flush(serial, true, true), 0)
  {
    hide Pages, Segments, Stretch, OpusHead, OpusTags, AudioPages;
    var head := HeaderPages(OpusHead(config), serial, true, 0);
    var tags := HeaderPages(OpusTags(config), serial, false, |head|);
    var audio := AudioPages(config, packets, 0, serial, |head| + |tags|);
    FlushStretch([Packet(OpusHead(config), 0)], Flush(serial, true, false), 0);
    FlushStretch([Packet(OpusTags(config), 0)], Flush(serial, false, false), |head|);
    AudioStretch(config, packets, 0, serial, |head| + |tags|);
    StretchAppend(head, tags, serial, true, false, 0);
    assert |head + tags| == |head| + |tags|;
    StretchAppend(head + tags, audio, serial, true, true, 0);
  }

  // ----- packets out again

  lemma FlushReassembles(packets: seq<Packet>, flush: Flush, first: bool, sequence: nat)
    ensures Reassemble(Pages(Segments(packets), flush, false, first, sequence), None)
         == Some(Assembly(Payloads(packets), None))
  {
    PagesReassemble(Segments(packets), flush, None, first, sequence);
    UnlaceSegments(packets);
  }

  lemma {:induction false} AudioReassembles(
    config: OggOpusConfig, packets: seq<bytes>, index: nat, serial: nat, sequence: nat)
    requires config.packetsPerFlush > 0
    ensures Reassemble(AudioPages(config, packets, index, serial, sequence), None) == Some(Assembly(packets, None))
    decreases |packets|
  {
    hide Pages, Segments;
    if packets != [] {
      var n := Min(config.packetsPerFlush, |packets|);
      var batch := Stamp(packets[..n], index, config.packetSamples);
      var flush := Flush(serial, false, n == |packets|);
      var pages := Pages(Segments(batch), flush, false, true, sequence);
      FlushReassembles(batch, flush, true, sequence);
      assert Payloads(batch) == packets[..n];
      AudioReassembles(config, packets[n..], index + n, serial, sequence + |pages|);
      ReassembleAppend(pages, AudioPages(config, packets[n..], index + n, serial, sequence + |pages|), None);
      assert packets[..n] + packets[n..] == packets;
    }
  }

  lemma StreamReassembles(config: OggOpusConfig, packets: seq<bytes>, serial: nat)
    requires config.Valid()
    ensures Reassemble(StreamPages(config, packets, serial), None)
         == Some(Assembly([OpusHead(config), OpusTags(config)] + packets, None))
  {
    hide Pages, Segments, OpusHead, OpusTags, AudioPages, Reassemble;
    var head := HeaderPages(OpusHead(config), serial, true, 0);
    var tags := HeaderPages(OpusTags(config), serial, false, |head|);
    FlushReassembles([Packet(OpusHead(config), 0)], Flush(serial, true, false), true, 0);
    FlushReassembles([Packet(OpusTags(config), 0)], Flush(serial, false, false), true, |head|);
    assert Payloads([Packet(OpusHead(config), 0)]) == [OpusHead(config)];
    assert Payloads([Packet(OpusTags(config), 0)]) == [OpusTags(config)];
    AudioReassembles(config, packets, 0, serial, |head| + |tags|);
    ReassembleAppend(head, tags, None);
    ReassembleAppend(head + tags, AudioPages(config, packets, 0, serial, |head| + |tags|), None);
    assert [OpusHead(config)] + [OpusTags(config)] == [OpusHead(config), OpusTags(config)];
  }

  lemma WholeStretchReads(pages: seq<Page>, serial: nat)
    requires Stretch(pages, Flush(serial, true, true), 0)
    requires serial <= UINT32_MAX && |pages| <= UINT32_MAX + 1
    ensures pages != [] && ParsePages(Join(Wires(pages))) == Some(pages) && Framed(pages)
  {
    hide Sum, ParsePages, Wires, Join;
    forall i | 0 <= i < |pages|
      ensures pages[i].WellFormed() && PageFramed(pages, i, Flush(serial, true, true), false, true, 0)
    {
      StretchPage(pages, i, Flush(serial, true, true), 0);
    }
    ParseWires(pages);
  }

  /** The round trip: reading a written stream gives the two headers and then every packet, whatever the flush size
    * and wherever the page boundaries fall. */
  lemma MuxDemux(config: OggOpusConfig, packets: seq<bytes>, serial: nat)
    requires config.Valid() && Writable(config, packets, serial)
    ensures Demux(WrittenPages(StreamPages(config, packets, serial)).output)
         == Some([OpusHead(config), OpusTags(config)] + packets)
  {
    hide Pages, Segments, OpusHead, OpusTags, AudioPages, Reassemble, StreamPages, Stretch, ParsePages, Framed, Wires;
    var pages := StreamPages(config, packets, serial);
    StreamIsFramed(config, packets, serial);
    StreamReassembles(config, packets, serial);
    WholeStretchReads(pages, serial);
  }

  /** The identification header has the first page to itself, and every header packet ends on its own pages, so the
    * audio starts on a fresh one (RFC 7845, section 3). */
  lemma HeadersStandAlone(config: OggOpusConfig, packets: seq<bytes>, serial: nat)
    requires config.Valid() && packets != []
    ensures
      var pages := StreamPages(config, packets, serial);
      var tags := HeaderPages(OpusTags(config), serial, false, 1);
      && |pages| > 1 + |tags|
      && pages[0].lacing == [19] && pages[0].body == OpusHead(config)
      && pages[1..1 + |tags|] == tags
      && Reassemble(tags, None) == Some(Assembly([OpusTags(config)], None))
      && Reassemble(pages[1 + |tags|..], None) == Some(Assembly(packets, None))
      && !pages[1].continued && !pages[1 + |tags|].continued
  {
    hide Pages, OpusTags, AudioPages, Reassemble;
    var head := HeaderPages(OpusHead(config), serial, true, 0);
    SinglePage(OpusHead(config), Flush(serial, true, false));
    assert head[0].lacing == [19] && head[0].body == OpusHead(config);
    var tags := HeaderPages(OpusTags(config), serial, false, 1);
    var audio := AudioPages(config, packets, 0, serial, 1 + |tags|);
    var pages := StreamPages(config, packets, serial);
    assert pages == head + tags + audio;
    FlushReassembles([Packet(OpusTags(config), 0)], Flush(serial, false, false), true, 1);
    assert Payloads([Packet(OpusTags(config), 0)]) == [OpusTags(config)];
    AudioReassembles(config, packets, 0, serial, 1 + |tags|);
    AudioStretch(config, packets, 0, serial, 1 + |tags|);
    FlushStretch([Packet(OpusTags(config), 0)], Flush(serial, false, false), 1);
    assert pages[1..1 + |tags|] == tags && pages[1 + |tags|..] == audio;
    assert pages[0] == head[0] && pages[1] == tags[0] && pages[1 + |tags|] == audio[0];
    StretchPage(tags, 0, Flush(serial, false, false), 1);
    StretchPage(audio, 0, Flush(serial, false, true), 1 + |tags|);
  }

  lemma SinglePage(payload: bytes, flush: Flush)
    requires |payload| == 19
    ensures Pages(Segments([Packet(payload, 0)]), flush, false, true, 0)
         == [PageOf([Segment(payload, 0)], flush, false, true, true, 0)]
    ensures Lacing([Segment(payload, 0)]) == [19] && Body([Segment(payload, 0)]) == payload
  {
    var segments := [Segment(payload, 0)];
    assert PacketSegments(payload, 0) == segments;
    assert Segments([]) == [];
    assert Segments([Packet(payload, 0)]) == segments;
    assert segments[..1] == segments && segments[1..] == [] && segments[..0] == [];
  }

  // ----- granule positions (RFC 7845, section 4)

  function EndedIn(segments: seq<Segment>): nat {
    if segments == [] then 0 else (if segments[0].Ends() then 1 else 0) + EndedIn(segments[1..])
  }

  /** Every segment carries the sample count at the end of its own packet, `index` packets lying before it. */
  ghost predicate Stamped(segments: seq<Segment>, index: nat, samples: nat) {
    segments == [] ||
    (&& segments[0].granule == (index + 1) * samples
     && Stamped(segments[1..], index + (if segments[0].Ends() then 1 else 0), samples))
  }

  lemma {:induction false} StampedAppend(a: seq<Segment>, b: seq<Segment>, index: nat, samples: nat)
    ensures Stamped(a + b, index, samples) == (Stamped(a, index, samples) && Stamped(b, index + EndedIn(a), samples))
    ensures EndedIn(a + b) == EndedIn(a) + EndedIn(b)
  {
    if a == [] {
      assert a + b == b;
    } else {
      assert (a + b)[0] == a[0] && (a + b)[1..] == a[1..] + b;
      StampedAppend(a[1..], b, index + (if a[0].Ends() then 1 else 0), samples);
    }
  }

  lemma {:induction false} PacketStamped(payload: bytes, index: nat, samples: nat)
    ensures Stamped(PacketSegments(payload, (index + 1) * samples), index, samples)
    ensures EndedIn(PacketSegments(payload, (index + 1) * samples)) == 1
    decreases |payload|
  {
    var granule := (index + 1) * samples;
    var segments := PacketSegments(payload, granule);
    if |payload| >= MAX_LACING_VALUE {
      assert segments[1..] == PacketSegments(payload[MAX_LACING_VALUE..], granule);
      PacketStamped(payload[MAX_LACING_VALUE..], index, samples);
    } else {
      assert segments[1..] == [];
    }
  }

  lemma {:induction false} BatchStamped(payloads: seq<bytes>, index: nat, samples: nat)
    ensures Stamped(Segments(Stamp(payloads, index, samples)), index, samples)
    ensures EndedIn(Segments(Stamp(payloads, index, samples))) == |payloads|
  {
    var batch := Stamp(payloads, index, samples);
    if payloads != [] {
      var own := PacketSegments(payloads[0], (index + 1) * samples);
      assert batch[1..] == Stamp(payloads[1..], index + 1, samples);
      PacketStamped(payloads[0], index, samples);
      BatchStamped(payloads[1..], index + 1, samples);
      StampedAppend(own, Segments(batch[1..]), index, samples);
    }
  }

  lemma {:induction false} StampedGranule(segments: seq<Segment>, index: nat, samples: nat)
    requires Stamped(segments, index, samples)
    ensures PageGranule(segments) == if EndedIn(segments) == 0 then -1 else (index + EndedIn(segments)) * samples
    ensures Completed(Lacing(segments)) == EndedIn(segments)
    decreases |segments|
  {
    if segments != [] {
      var n := |segments| - 1;
      var front, last := segments[..n], segments[n];
      assert segments == front + [last];
      StampedAppend(front, [last], index, samples);
      assert [last][0] == last && [last][1..] == [];
      assert EndedIn([last]) == if last.Ends() then 1 else 0;
      assert Stamped([last], index + EndedIn(front), samples);
      assert last.granule == (index + EndedIn(front) + 1) * samples;
      StampedGranule(front, index, samples);
      assert Lacing(segments)[..n] == Lacing(front);
    }
  }

  function SampleClock(completed: nat, samples: nat): (granule: nat)
    ensures granule <= UINT64_MAX
  {
    (completed * samples) % (UINT64_MAX + 1)
  }

  /** A page's granule position counts the samples of every audio packet completed up to and including it, and is the
    * reserved all-ones value when no packet is completed on it. */
  ghost predicate GranuleCounts(pages: seq<Page>, i: nat, index: nat, samples: nat)
    requires i < |pages|
  {
    pages[i].granule ==
      if Completed(pages[i].lacing) == 0 then UINT64_MAX
      else SampleClock(index + CompletedBy(pages[..i + 1]), samples)
  }

  ghost predicate GranulesCount(pages: seq<Page>, index: nat, samples: nat) {
    forall i :: 0 <= i < |pages| ==> GranuleCounts(pages, i, index, samples)
  }

  lemma {:induction false} CompletedByAppend(a: seq<Page>, b: seq<Page>)
    ensures CompletedBy(a + b) == CompletedBy(a) + CompletedBy(b)
    decreases |b|
  {
    if b == [] {
      assert a + b == a;
    } else {
      var n := |b| - 1;
      assert (a + b)[..|a| + n] == a + b[..n];
      CompletedByAppend(a, b[..n]);
    }
  }

  lemma GranulesAppend(a: seq<Page>, b: seq<Page>, index: nat, samples: nat)
    requires GranulesCount(a, index, samples)
    requires GranulesCount(b, index + CompletedBy(a), samples)
    ensures GranulesCount(a + b, index, samples)
  {
    hide GranuleCounts;
    forall i | 0 <= i < |a + b|
      ensures GranuleCounts(a + b, i, index, samples)
    {
      if i < |a| {
        LeftGranule(a, b, i, index, samples);
      } else {
        assert GranuleCounts(b, i - |a|, index + CompletedBy(a), samples);
        RightGranule(a, b, i - |a|, index, samples);
      }
    }
  }

  lemma LeftGranule(a: seq<Page>, b: seq<Page>, i: nat, index: nat, samples: nat)
    requires i < |a| && GranuleCounts(a, i, index, samples)
    ensures GranuleCounts(a + b, i, index, samples)
  {
    assert (a + b)[..i + 1] == a[..i + 1];
  }

  lemma RightGranule(a: seq<Page>, b: seq<Page>, j: nat, index: nat, samples: nat)
    requires j < |b| && GranuleCounts(b, j, index + CompletedBy(a), samples)
    ensures GranuleCounts(a + b, |a| + j, index, samples)
  {
    hide SampleClock, Completed, CompletedBy;
    assert (a + b)[..|a| + j + 1] == a + b[..j + 1];
    CompletedByAppend(a, b[..j + 1]);
    assert (a + b)[|a| + j] == b[j];
  }

  lemma {:induction false} PagesGranules(
    segments: seq<Segment>, flush: Flush, continued: bool, first: bool, sequence: nat, index: nat, samples: nat)
    requires Stamped(segments, index, samples)
    ensures
      var pages := Pages(segments, flush, continued, first, sequence);
      GranulesCount(pages, index, samples) && CompletedBy(pages) == EndedIn(segments)
    decreases |segments|
  {
    hide GranulesCount, GranuleCounts, Stamped, SampleClock, EndedIn;
    if segments != [] {
      var cut := Cut(segments);
      var front, back := segments[..cut], segments[cut..];
      var page := PageOf(front, flush, continued, first, cut == |segments|, sequence);
      var later := Pages(back, flush, EndsOpen(front), false, sequence + 1);
      assert segments == front + back;
      StampedAppend(front, back, index, samples);
      FrontGranule(front, index, samples);
      PagesGranules(back, flush, EndsOpen(front), false, sequence + 1, index + EndedIn(front), samples);
      OnePageGranule(page, index, samples, EndedIn(front));
      GranulesAppend([page], later, index, samples);
      CompletedByAppend([page], later);
    } else {
      NoGranules(index, samples);
      NoneEnded();
    }
  }

  lemma NoneEnded()
    ensures EndedIn([]) == 0
  {}

  lemma FrontGranule(front: seq<Segment>, index: nat, samples: nat)
    requires Stamped(front, index, samples)
    ensures Completed(Lacing(front)) == EndedIn(front)
    ensures PageGranule(front) % (UINT64_MAX + 1)
         == if EndedIn(front) == 0 then UINT64_MAX else SampleClock(index + EndedIn(front), samples)
  {
    StampedGranule(front, index, samples);
  }

  lemma OnePageGranule(page: Page, index: nat, samples: nat, ended: nat)
    requires Completed(page.lacing) == ended
    requires page.granule == if ended == 0 then UINT64_MAX else SampleClock(index + ended, samples)
    ensures GranulesCount([page], index, samples) && CompletedBy([page]) == ended
  {
    assert [page][..0] == [] && [page][..0 + 1] == [page];
    assert CompletedBy([page]) == ended;
  }

  /** Granule positions of the audio, across all flushes. */
  lemma {:induction false} AudioGranules(
    config: OggOpusConfig, packets: seq<bytes>, index: nat, serial: nat, sequence: nat)
    requires config.packetsPerFlush > 0
    ensures
      var pages := AudioPages(config, packets, index, serial, sequence);
      GranulesCount(pages, index, config.packetSamples) && CompletedBy(pages) == |packets|
    decreases |packets|
  {
    hide Pages, Segments, Stamped, GranulesCount;
    if packets != [] {
      var samples := config.packetSamples;
      var n := Min(config.packetsPerFlush, |packets|);
      var batch := Stamp(packets[..n], index, samples);
      var flush := Flush(serial, false, n == |packets|);
      var pages := Pages(Segments(batch), flush, false, true, sequence);
      BatchStamped(packets[..n], index, samples);
      PagesGranules(Segments(batch), flush, false, true, sequence, index, samples);
      AudioGranules(config, packets[n..], index + n, serial, sequence + |pages|);
      var later := AudioPages(config, packets[n..], index + n, serial, sequence + |pages|);
      GranulesAppend(pages, later, index, samples);
      CompletedByAppend(pages, later);
    } else {
      NoGranules(index, config.packetSamples);
    }
  }

  lemma NoGranules(index: nat, samples: nat)
    ensures GranulesCount([], index, samples)
  {}

  /** The last granule position is the duration of all packets, as a 64-bit field holds it. */
  lemma FinalGranule(config: OggOpusConfig, packets: seq<bytes>, serial: nat)
    requires config.Valid() && packets != []
    ensures
      var pages := StreamPages(config, packets, serial);
      pages != [] && pages[|pages| - 1].granule == SampleClock(|packets|, config.packetSamples)
  {
    hide Pages, Segments, OpusHead, OpusTags, AudioPages, Sum;
    var head := HeaderPages(OpusHead(config), serial, true, 0);
    var tags := HeaderPages(OpusTags(config), serial, false, |head|);
    var audio := AudioPages(config, packets, 0, serial, |head| + |tags|);
    AudioStretch(config, packets, 0, serial, |head| + |tags|);
    AudioGranules(config, packets, 0, serial, |head| + |tags|);
    var last := audio[|audio| - 1];
    StretchPage(audio, |audio| - 1, Flush(serial, false, true), |head| + |tags|);
    assert audio[..|audio| - 1 + 1] == audio;
    assert last.lacing[|last.lacing| - 1] < MAX_LACING_VALUE;
    assert Completed(last.lacing) > 0;
    assert GranuleCounts(audio, |audio| - 1, 0, config.packetSamples);
    assert StreamPages(config, packets, serial) == head + tags + audio;
  }

  /** A header packet is complete once, at position zero. */
  lemma HeaderGranules(payload: bytes, serial: nat, beginning: bool, sequence: nat)
    ensures
      var pages := HeaderPages(payload, serial, beginning, sequence);
      GranulesCount(pages, 0, 0) && CompletedBy(pages) == 1
  {
    hide Pages, Segments, Stamped, GranulesCount;
    BatchStamped([payload], 0, 0);
    assert Stamp([payload], 0, 0) == [Packet(payload, 0)];
    PagesGranules(Segments([Packet(payload, 0)]), Flush(serial, beginning, false), false, true, sequence, 0, 0);
  }

  /** How many audio packets are complete when `completed` packets are, the two headers among them. */
  function AudioCompleted(completed: nat): nat {
    if completed < 2 then 0 else completed - 2
  }

  /** A page of the whole stream counts the audio packets completed by then. */
  ghost predicate StreamGranule(pages: seq<Page>, i: nat, samples: nat)
    requires i < |pages|
  {
    pages[i].granule ==
      if Completed(pages[i].lacing) == 0 then UINT64_MAX
      else SampleClock(AudioCompleted(CompletedBy(pages[..i + 1])), samples)
  }

  lemma CompletedPrefix(pages: seq<Page>, n: nat)
    requires n <= |pages|
    ensures CompletedBy(pages[..n]) <= CompletedBy(pages)
  {
    CompletedByAppend(pages[..n], pages[n..]);
    assert pages[..n] + pages[n..] == pages;
  }

  lemma HeaderGranule(before: seq<Page>, pages: seq<Page>, after: seq<Page>, i: nat, samples: nat)
    requires CompletedBy(before) <= 1 && CompletedBy(pages) <= 1
    requires i < |pages| && GranulesCount(pages, 0, 0)
    ensures StreamGranule(before + pages + after, |before| + i, samples)
  {
    hide Completed, CompletedBy;
    var all := before + pages + after;
    assert all[..|before| + i + 1] == before + pages[..i + 1] && all[|before| + i] == pages[i];
    CompletedByAppend(before, pages[..i + 1]);
    CompletedPrefix(pages, i + 1);
    assert GranuleCounts(pages, i, 0, 0);
  }

  lemma AudioGranule(before: seq<Page>, pages: seq<Page>, i: nat, samples: nat)
    requires CompletedBy(before) == 2 && i < |pages| && GranulesCount(pages, 0, samples)
    ensures StreamGranule(before + pages, |before| + i, samples)
  {
    hide Completed, CompletedBy, SampleClock;
    var all := before + pages;
    assert all[..|before| + i + 1] == before + pages[..i + 1] && all[|before| + i] == pages[i];
    CompletedByAppend(before, pages[..i + 1]);
    assert GranuleCounts(pages, i, 0, samples);
  }

  /** Granule positions of the whole stream: zero where a header ends, the samples of the audio packets completed so far
    * where an audio packet does, and all ones where none does. */
  lemma StreamGranules(config: OggOpusConfig, packets: seq<bytes>, serial: nat)
    requires config.Valid()
    ensures
      var pages := StreamPages(config, packets, serial);
      && CompletedBy(pages) == 2 + |packets|
      && forall i :: 0 <= i < |pages| ==> StreamGranule(pages, i, config.packetSamples)
  {
    hide Pages, Segments, OpusHead, OpusTags, AudioPages, HeaderPages, GranulesCount, StreamGranule, CompletedBy;
    var head := HeaderPages(OpusHead(config), serial, true, 0);
    var tags := HeaderPages(OpusTags(config), serial, false, |head|);
    var audio := AudioPages(config, packets, 0, serial, |head| + |tags|);
    var pages, samples := StreamPages(config, packets, serial), config.packetSamples;
    HeaderGranules(OpusHead(config), serial, true, 0);
    HeaderGranules(OpusTags(config), serial, false, |head|);
    AudioGranules(config, packets, 0, serial, |head| + |tags|);
    CompletedByAppend(head, tags);
    CompletedByAppend(head + tags, audio);
    NoneCompleted();
    assert pages == head + tags + audio == [] + head + (tags + audio);
    forall i | 0 <= i < |pages|
      ensures StreamGranule(pages, i, samples)
    {
      if i < |head| {
        HeaderGranule([], head, tags + audio, i, samples);
      } else if i < |head + tags| {
        HeaderGranule(head, tags, audio, i - |head|, samples);
      } else {
        AudioGranule(head + tags, audio, i - |head + tags|, samples);
      }
    }
  }

  lemma NoneCompleted()
    ensures CompletedBy([]) == 0
  {}

  // ----- where the audio pages break

  /** A page of the audio is closed by its size, or ends a flush: then a whole number of flushes is complete. */
  ghost predicate AudioBreak(pages: seq<Page>, i: nat, packetsPerFlush: nat)
    requires i < |pages| && packetsPerFlush > 0
  {
    && OpenUntilLast(pages[i])
    && (Closed(pages[i]) || i == |pages| - 1 || CompletedBy(pages[..i + 1]) % packetsPerFlush == 0)
  }

  ghost predicate AudioBreaks(pages: seq<Page>, packetsPerFlush: nat)
    requires packetsPerFlush > 0
  {
    forall i :: 0 <= i < |pages| ==> AudioBreak(pages, i, packetsPerFlush)
  }

  lemma AudioBreaksAppend(a: seq<Page>, b: seq<Page>, packetsPerFlush: nat)
    requires packetsPerFlush > 0 && BreakRight(a) && AudioBreaks(b, packetsPerFlush)
    requires b != [] ==> CompletedBy(a) == packetsPerFlush
    ensures AudioBreaks(a + b, packetsPerFlush)
  {
    hide OpenUntilLast, Closed, CompletedBy;
    forall i | 0 <= i < |a + b|
      ensures AudioBreak(a + b, i, packetsPerFlush)
    {
      if i < |a| {
        assert (a + b)[i] == a[i];
        assert i == |a| - 1 ==> (a + b)[..i + 1] == a;
      } else {
        var j := i - |a|;
        assert (a + b)[i] == b[j] && (a + b)[..i + 1] == a + b[..j + 1];
        CompletedByAppend(a, b[..j + 1]);
        assert AudioBreak(b, j, packetsPerFlush);
        if b[..j + 1] != [] {
          AddOne(CompletedBy(b[..j + 1]), packetsPerFlush);
        }
      }
    }
  }

  lemma AddOne(n: nat, d: nat)
    requires d > 0
    ensures (d + n) % d == n % d
  {
    var q, r := n / d, n % d;
    assert d + n == (q + 1) * d + r;
    QuotientIs(d + n, d, q + 1, r);
  }

  /** Audio pages break where they are full, after each flush of packets, and at the end. */
  lemma {:induction false} AudioPagesBreak(
    config: OggOpusConfig, packets: seq<bytes>, index: nat, serial: nat, sequence: nat)
    requires config.packetsPerFlush > 0
    ensures AudioBreaks(AudioPages(config, packets, index, serial, sequence), config.packetsPerFlush)
    decreases |packets|
  {
    hide Pages, Segments, Stamped, GranulesCount, BreakRight, AudioBreaks;
    if packets != [] {
      var samples := config.packetSamples;
      var n := Min(config.packetsPerFlush, |packets|);
      var batch := Stamp(packets[..n], index, samples);
      var flush := Flush(serial, false, n == |packets|);
      var pages := Pages(Segments(batch), flush, false, true, sequence);
      var later := AudioPages(config, packets[n..], index + n, serial, sequence + |pages|);
      BatchStamped(packets[..n], index, samples);
      PagesGranules(Segments(batch), flush, false, true, sequence, index, samples);
      PagesBreak(Segments(batch), flush, false, true, sequence);
      AudioPagesBreak(config, packets[n..], index + n, serial, sequence + |pages|);
      AudioBreaksAppend(pages, later, config.packetsPerFlush);
    } else {
      NothingBreaks(config.packetsPerFlush);
    }
  }

  lemma NothingBreaks(packetsPerFlush: nat)
    requires packetsPerFlush > 0
    ensures AudioBreaks([], packetsPerFlush)
  {}
}
