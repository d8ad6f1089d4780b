/** The whole Ogg Opus stream: identification header, comment header, and audio in flushes
  * (RFC 7845, sections 3 to 5). */
module OggStream {
  import opened Bytes
  import opened OggPage
  import opened OggSegments
  import opened OggEncoder

  datatype OggOpusConfig = OggOpusConfig(
    packetsPerFlush: nat,
    packetSamples: nat,
    channels: nat,
    preSkip: nat,
    inputSampleRate: nat,
    outputGain: int,
    mappingFamily: nat,
    vendor: bytes,
    comments: seq<bytes>)
  {
    /** What `__post_init__` lets through. */
    predicate Valid() {
      && packetsPerFlush > 0
      && packetSamples > 0
      && 1 <= channels <= 0xFF
      && preSkip <= 0xFFFF
      && inputSampleRate > 0
      && -0x8000 <= outputGain <= 0x7FFF
      && mappingFamily <= 0xFF
    }

    /** The lengths that `struct.pack` has 32 bits for. */
    predicate FitsFields() {
      && inputSampleRate <= UINT32_MAX
      && |vendor| <= UINT32_MAX
      && |comments| <= UINT32_MAX
      && forall i :: 0 <= i < |comments| ==> |comments[i]| <= UINT32_MAX
    }
  }

  const OPUS_HEAD: bytes := [0x4F, 0x70, 0x75, 0x73, 0x48, 0x65, 0x61, 0x64]
  const OPUS_TAGS: bytes := [0x4F, 0x70, 0x75, 0x73, 0x54, 0x61, 0x67, 0x73]

  function OpusHead(config: OggOpusConfig): (head: bytes)
    requires config.Valid()
    ensures |head| == 19
  {
    OPUS_HEAD + [1, config.channels] + LittleEndian(config.preSkip, 2) + LittleEndian(config.inputSampleRate, 4)
    + LittleEndian(config.outputGain % 0x1_0000, 2) + [config.mappingFamily]
  }

  function CommentFields(comments: seq<bytes>): bytes
    decreases |comments|
  {
    if comments == [] then []
    else
      var n := |comments| - 1;
      CommentFields(comments[..n]) + LittleEndian(|comments[n]|, 4) + comments[n]
  }

  function OpusTags(config: OggOpusConfig): bytes {
    OPUS_TAGS + LittleEndian(|config.vendor|, 4) + config.vendor
    + LittleEndian(|config.comments|, 4) + CommentFields(config.comments)
  }

  /** `_opus_tags` fills one buffer, length by length. */
  method EncodeOpusTags(config: OggOpusConfig) returns (result: Result<bytes, OggError>)
    ensures result.Ok? ==> result.value == OpusTags(config)
    ensures result.Ok? <==>
      && |config.vendor| <= UINT32_MAX && |config.comments| <= UINT32_MAX
      && forall i :: 0 <= i < |config.comments| ==> |config.comments[i]| <= UINT32_MAX
    ensures result.Err? ==> result.error == FieldOverflow
  {
    if |config.vendor| > UINT32_MAX || |config.comments| > UINT32_MAX {
      return Err(FieldOverflow);
    }
    var tags := OPUS_TAGS + LittleEndian(|config.vendor|, 4);
    tags := tags + config.vendor;
    tags := tags + LittleEndian(|config.comments|, 4);
    ghost var prefix := tags;
    for i := 0 to |config.comments|
      invariant tags == prefix + CommentFields(config.comments[..i])
      invariant forall k :: 0 <= k < i ==> |config.comments[k]| <= UINT32_MAX
    {
      var comment := config.comments[i];
      if |comment| > UINT32_MAX {
        return Err(FieldOverflow);
      }
      assert config.comments[..i + 1][..i] == config.comments[..i];
      tags := tags + LittleEndian(|comment|, 4);
      tags := tags + comment;
    }
    assert config.comments[..|config.comments|] == config.comments;
    return Ok(tags);
  }

  // ----- the pages of a stream

  function Stamp(payloads: seq<bytes>, index: nat, samples: nat): (batch: seq<Packet>)
    ensures |batch| == |payloads|
  {
    seq(|payloads|, i requires 0 <= i < |payloads| => Packet(payloads[i], (index + i + 1) * samples))
  }

  function HeaderPages(payload: bytes, serial: nat, beginning: bool, sequence: nat): seq<Page> {
    Pages(Segments([Packet(payload, 0)]), Flush(serial, beginning, false), false, true, sequence)
  }

  function Min(a: nat, b: nat): nat {
    if a < b then a else b
  }

  /** The audio pages from packet number `index` on; each flush paginates on its own. */
  function AudioPages(config: OggOpusConfig, packets: seq<bytes>, index: nat, serial: nat, sequence: nat): seq<Page>
    requires config.packetsPerFlush > 0
    decreases |packets|
  {
    if packets == [] then []
    else
      var n := Min(config.packetsPerFlush, |packets|);
      var batch := Stamp(packets[..n], index, config.packetSamples);
      var pages := Pages(Segments(batch), Flush(serial, false, n == |packets|), false, true, sequence);
      pages + AudioPages(config, packets[n..], index + n, serial, sequence + |pages|)
  }

  function StreamPages(config: OggOpusConfig, packets: seq<bytes>, serial: nat): seq<Page>
    requires config.Valid()
  {
    var head := HeaderPages(OpusHead(config), serial, true, 0);
    var tags := HeaderPages(OpusTags(config), serial, false, |head|);
    head + tags + AudioPages(config, packets, 0, serial, |head| + |tags|)
  }

  // ----- writing

  datatype Written = Written(output: bytes, pageCount: nat, byteCount: nat)

  /** `_write_pages`: every page goes to the file and the digest; both absorb the same bytes. */
  method WritePages(output: bytes, batch: PageBatch) returns (newOutput: bytes, pageCount: nat, byteCount: nat)
    ensures newOutput == output + Join(batch.encoded)
    ensures pageCount == |batch.encoded| && byteCount == |Join(batch.encoded)|
  {
    newOutput, byteCount := output, 0;
    for i := 0 to |batch.encoded|
      invariant newOutput == output + Join(batch.encoded[..i])
      invariant byteCount == |Join(batch.encoded[..i])|
    {
      assert batch.encoded[..i + 1] == batch.encoded[..i] + [batch.encoded[i]];
      JoinAppend(batch.encoded[..i], [batch.encoded[i]]);
      assert Join([batch.encoded[i]]) == batch.encoded[i];
      newOutput := newOutput + batch.encoded[i];
      byteCount := byteCount + |batch.encoded[i]|;
    }
    assert batch.encoded[..|batch.encoded|] == batch.encoded;
    pageCount := |batch.encoded|;
  }

  ghost predicate NonemptyTo(packets: seq<bytes>, start: nat, end: nat)
    requires end <= |packets|
  {
    forall i :: start <= i < end ==> packets[i] != []
  }

  ghost predicate FirstEmpty(packets: seq<bytes>, start: nat, index: nat) {
    start <= index < |packets| && packets[index] == [] && NonemptyTo(packets, start, index)
  }

  lemma SliceNext(packets: seq<bytes>, start: nat, i: nat)
    requires start <= i < |packets|
    ensures packets[start..i] + [packets[i]] == packets[start..i + 1]
  {}

  lemma NonemptyNext(packets: seq<bytes>, start: nat, i: nat)
    requires start <= i < |packets| && NonemptyTo(packets, start, i) && packets[i] != []
    ensures NonemptyTo(packets, start, i + 1)
  {}

  lemma EmptyWithin(packets: seq<bytes>, start: nat, i: nat, end: nat)
    requires start <= i < end <= |packets| && packets[i] == []
    ensures !NonemptyTo(packets, start, end)
  {}

  /** The next packets off the validating iterator: it raises at the first empty one. */
  method Take(packets: seq<bytes>, start: nat, count: nat) returns (result: Result<seq<bytes>, OggError>)
    requires start <= |packets|
    ensures
      var end := Min(start + count, |packets|);
      && (result.Ok? <==> NonemptyTo(packets, start, end))
      && (result.Ok? ==> result.value == packets[start..end])
    ensures result.Err? ==> result.error.EmptyPacket? && FirstEmpty(packets, start, result.error.index)
  {
    hide NonemptyTo;
    var taken := [];
    var i := start;
    assert packets[start..start] == [];
    assert NonemptyTo(packets, start, start) by { NonemptyNone(packets, start); }
    while i < |packets| && |taken| < count
      invariant start <= i <= |packets| && |taken| == i - start <= count
      invariant taken == packets[start..i]
      invariant NonemptyTo(packets, start, i)
    {
      if packets[i] == [] {
        EmptyWithin(packets, start, i, Min(start + count, |packets|));
        return Err(EmptyPacket(i));
      }
      SliceNext(packets, start, i);
      NonemptyNext(packets, start, i);
      taken := taken + [packets[i]];
      i := i + 1;
    }
    return Ok(taken);
  }

  lemma NonemptyNone(packets: seq<bytes>, start: nat)
    requires start <= |packets|
    ensures NonemptyTo(packets, start, start)
  {}

  ghost predicate AllNonempty(packets: seq<bytes>) {
    forall i :: 0 <= i < |packets| ==> packets[i] != []
  }

  function WrittenPages(pages: seq<Page>): Written {
    Written(Join(Wires(pages)), |pages|, |Join(Wires(pages))|)
  }

  lemma WrittenAppend(a: seq<Page>, b: seq<Page>)
    ensures Join(Wires(a + b)) == Join(Wires(a)) + Join(Wires(b))
  {
    WiresAppend(a, b);
    JoinAppend(Wires(a), Wires(b));
  }

  /** One `_encode_pages` followed by one `_write_pages`. */
  method WriteBatch(packets: seq<Packet>, flush: Flush, sequence: nat, so: Written, ghost before: seq<Page>)
    returns (result: Result<Written, OggError>, nextSequence: nat)
    requires flush.serial <= UINT32_MAX
    requires so == WrittenPages(before)
    ensures
      var pages := Pages(Segments(packets), flush, false, true, sequence);
      && (result.Ok? <==> !TooManyPages(pages, sequence))
      && (result.Ok? ==> result.value == WrittenPages(before + pages) && nextSequence == sequence + |pages|)
    ensures result.Err? ==> result.error == FieldOverflow
  {
    hide Pages, Segments, Page.Wire;
    ghost var pages := Pages(Segments(packets), flush, false, true, sequence);
    var batch := EncodePages(packets, flush, sequence);
    if batch.Err? {
      return Err(batch.error), sequence;
    }
    var output, pageCount, byteCount := WritePages(so.output, batch.value);
    WrittenAppend(before, pages);
    return Ok(Written(output, so.pageCount + pageCount, so.byteCount + byteCount)), batch.value.nextSequence;
  }

  ghost predicate Writable(config: OggOpusConfig, packets: seq<bytes>, serial: nat)
    requires config.Valid()
  {
    && packets != [] && AllNonempty(packets)
    && serial <= UINT32_MAX
    && config.FitsFields()
    && |StreamPages(config, packets, serial)| <= UINT32_MAX + 1
  }

  /** Why `_write_stream` gave up. */
  ghost predicate Explains(config: OggOpusConfig, packets: seq<bytes>, serial: nat, error: OggError)
    requires config.Valid()
  {
    match error
    case EmptyPackets => packets == []
    case EmptyPacket(index) => FirstEmpty(packets, 0, index)
    case InvalidSerial => serial > UINT32_MAX
    case FieldOverflow => !config.FitsFields() || |StreamPages(config, packets, serial)| > UINT32_MAX + 1
    case InvalidSegmentation => false
    case LostPayloadBytes => false
  }

  lemma AudioStep(config: OggOpusConfig, packets: seq<bytes>, index: nat, serial: nat, sequence: nat)
    requires config.packetsPerFlush > 0 && packets != []
    ensures
      var n := Min(config.packetsPerFlush, |packets|);
      var batch := Stamp(packets[..n], index, config.packetSamples);
      var pages := Pages(Segments(batch), Flush(serial, false, n == |packets|), false, true, sequence);
      AudioPages(config, packets, index, serial, sequence)
      == pages + AudioPages(config, packets[n..], index + n, serial, sequence + |pages|)
  {
    hide Pages, Segments;
  }

  lemma NoAudio(config: OggOpusConfig, index: nat, serial: nat, sequence: nat)
    requires config.packetsPerFlush > 0
    ensures AudioPages(config, [], index, serial, sequence) == []
  {}

  lemma NextSlice(packets: seq<bytes>, start: nat, count: nat)
    requires start + count <= |packets|
    ensures packets[start..][..count] == packets[start..start + count]
    ensures packets[start..][count..] == packets[start + count..]
  {}

  /** The body of that loop, once the flush and its successor are pulled. */
  method WriteFlush(config: OggOpusConfig, payloads: seq<bytes>, finalBatch: bool, packetIndex: nat, serial: nat,
                    sequence: nat, so: Written, ghost remaining: seq<bytes>, ghost out: seq<Page>)
    returns (result: Result<Written, OggError>, nextSequence: nat, ghost newOut: seq<Page>)
    requires config.Valid() && serial <= UINT32_MAX && remaining != []
    requires payloads == remaining[..Min(config.packetsPerFlush, |remaining|)]
    requires finalBatch == (|payloads| == |remaining|)
    requires so == WrittenPages(out) && sequence == |out| <= UINT32_MAX + 1
    ensures
      var all := out + AudioPages(config, remaining, packetIndex, serial, sequence);
      && (result.Ok? ==>
            && result.value == WrittenPages(newOut) && nextSequence == |newOut| <= UINT32_MAX + 1
            && all == newOut + AudioPages(config, remaining[|payloads|..], packetIndex + |payloads|, serial, nextSequence))
      && (result.Err? ==> result.error == FieldOverflow && |all| > UINT32_MAX + 1)
  {
    hide Pages, Segments, Page.Wire, Wires, WrittenPages, AudioPages;
    var batch := Stamp(payloads, packetIndex, config.packetSamples);
    var flush := Flush(serial, false, finalBatch);
    ghost var pages := Pages(Segments(batch), flush, false, true, sequence);
    AudioStep(config, remaining, packetIndex, serial, sequence);
    ConcatAssociates(out, pages,
      AudioPages(config, remaining[|payloads|..], packetIndex + |payloads|, serial, sequence + |pages|));
    newOut := out + pages;
    result, nextSequence := WriteBatch(batch, flush, sequence, so, out);
  }

  /** The loop of `_write_stream`: each flush is pulled before the one ahead of it is encoded, so that the last one
    * is known when its turn comes. */
  method WriteAudio(config: OggOpusConfig, packets: seq<bytes>, serial: nat, so: Written, nextSequence: nat,
                    ghost before: seq<Page>)
    returns (result: Result<Written, OggError>)
    requires config.Valid() && serial <= UINT32_MAX && packets != []
    requires so == WrittenPages(before) && nextSequence == |before| <= UINT32_MAX + 1
    ensures
      var all := before + AudioPages(config, packets, 0, serial, |before|);
      && (result.Ok? <==> AllNonempty(packets) && |all| <= UINT32_MAX + 1)
      && (result.Ok? ==> result.value == WrittenPages(all))
      && (result.Err? ==>
            || (result.error.EmptyPacket? && FirstEmpty(packets, 0, result.error.index))
            || (result.error == FieldOverflow && |all| > UINT32_MAX + 1))
  {
    hide Pages, Segments, Page.Wire, Wires, WrittenPages, AudioPages;
    ghost var all := before + AudioPages(config, packets, 0, serial, |before|);
    var written, sequence := so, nextSequence;
    ghost var out := before;
    var packetIndex := 0;
    var pulled := Take(packets, 0, config.packetsPerFlush);
    if pulled.Err? {
      return Err(pulled.error);
    }
    var payloads := pulled.value;
    assert packets[0..] == packets;
    while payloads != []
      invariant 0 <= packetIndex <= |packets|
      invariant payloads == packets[packetIndex..Min(packetIndex + config.packetsPerFlush, |packets|)]
      invariant forall k :: 0 <= k < packetIndex + |payloads| ==> packets[k] != []
      invariant written == WrittenPages(out) && sequence == |out| <= UINT32_MAX + 1
      invariant all == out + AudioPages(config, packets[packetIndex..], packetIndex, serial, sequence)
      decreases |packets| - packetIndex
    {
      var next := Take(packets, packetIndex + |payloads|, config.packetsPerFlush);
      if next.Err? {
        return Err(next.error);
      }
      NextSlice(packets, packetIndex, |payloads|);
      var batched;
      batched, sequence, out := WriteFlush(
        config, payloads, next.value == [], packetIndex, serial, sequence, written, packets[packetIndex..], out);
      if batched.Err? {
        return Err(batched.error);
      }
      written := batched.value;
      packetIndex := packetIndex + |payloads|;
      payloads := next.value;
    }
    assert packets[packetIndex..] == [] && out + [] == out;
    NoAudio(config, packetIndex, serial, sequence);
    return Ok(written);
  }

  /** `_validated_single_stream` and `_write_stream`. */
  method WriteStream(config: OggOpusConfig, packets: seq<bytes>, serial: nat) returns (result: Result<Written, OggError>)
    requires config.Valid()
    ensures result.Ok? <==> Writable(config, packets, serial)
    ensures result.Ok? ==> result.value == WrittenPages(StreamPages(config, packets, serial))
    ensures result.Err? ==> Explains(config, packets, serial, result.error)
  {
    hide Pages, Segments, Page.Wire, OpusHead, OpusTags, AudioPages;
    if packets == [] {
      return Err(EmptyPackets);
    }
    if packets[0] == [] {
      return Err(EmptyPacket(0));
    }
    if serial > UINT32_MAX {
      return Err(InvalidSerial);
    }
    if config.inputSampleRate > UINT32_MAX {
      return Err(FieldOverflow);
    }
    ghost var head := HeaderPages(OpusHead(config), serial, true, 0);
    ghost var tags := HeaderPages(OpusTags(config), serial, false, |head|);
    var begun, sequence := WriteBatch(
      [Packet(OpusHead(config), 0)], Flush(serial, true, false), 0, Written([], 0, 0), []);
    assert [] + head == head;
    if begun.Err? {
      return Err(begun.error);
    }
    var tagBytes := EncodeOpusTags(config);
    if tagBytes.Err? {
      return Err(tagBytes.error);
    }
    var tagged;
    tagged, sequence := WriteBatch([Packet(tagBytes.value, 0)], Flush(serial, false, false), sequence, begun.value, head);
    if tagged.Err? {
      return Err(tagged.error);
    }
    result := WriteAudio(config, packets, serial, tagged.value, sequence, head + tags);
  }
}
