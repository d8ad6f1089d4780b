/** One Ogg page: how the collector writes it, and how a reader following RFC 3533, section 6, takes it apart. */
module OggPage {
  import opened Bytes
  import OggCrc

  datatype OggError =
    | EmptyPackets
    | EmptyPacket(index: nat)
    | InvalidSerial
    | InvalidSegmentation
    | LostPayloadBytes
    | FieldOverflow  // struct.error: a field does not fit its width

  const MAX_LACING_VALUES: nat := 255
  const MAX_LACING_VALUE: nat := 255
  const CAPTURE_PATTERN: bytes := [0x4F, 0x67, 0x67, 0x53]

  datatype Page = Page(
    continued: bool,
    first: bool,
    last: bool,
    granule: nat,
    serial: nat,
    sequence: nat,
    lacing: bytes,
    body: bytes)
  {
    ghost predicate WellFormed() {
      && granule <= UINT64_MAX
      && serial <= UINT32_MAX
      && sequence <= UINT32_MAX
      && 1 <= |lacing| <= MAX_LACING_VALUES
      && Sum(lacing) == |body|
    }

    /** The header-type byte; the three bits are distinct, so `|` is addition. */
    function Flags(): byte {
      (if continued then 1 else 0) + (if first then 2 else 0) + (if last then 4 else 0)
    }

    /** The 22 bytes before the checksum field. */
    function Head(): (h: bytes)
      ensures |h| == 22
    {
      CAPTURE_PATTERN + [0, Flags()] + LittleEndian(granule, 8) + LittleEndian(serial, 4) + LittleEndian(sequence, 4)
    }

    /** Everything after the checksum field. */
    function Rest(): bytes {
      [|lacing| % 256] + lacing + body
    }

    /** The page with its checksum field filled in. */
    function Wire(): bytes {
      Head() + LittleEndian(StoredChecksum(), 4) + Rest()
    }

    /** The checksum is taken over the page with zeros in its place. */
    function StoredChecksum(): (crc: nat)
      ensures crc <= UINT32_MAX
    {
      OggCrc.Checksum(Head() + [0, 0, 0, 0] + Rest())
    }
  }

  function Sum(values: bytes): nat {
    if values == [] then 0 else values[0] + Sum(values[1..])
  }

  function Wires(pages: seq<Page>): (w: seq<bytes>)
    ensures |w| == |pages|
  {
    seq(|pages|, i requires 0 <= i < |pages| => pages[i].Wire())
  }

  lemma WiresAppend(a: seq<Page>, b: seq<Page>)
    ensures Wires(a + b) == Wires(a) + Wires(b)
  {
    hide Page.Wire;
    assert forall i :: 0 <= i < |a| ==> (a + b)[i] == a[i];
    assert forall i :: |a| <= i < |a| + |b| ==> (a + b)[i] == b[i - |a|];
  }

  /** `_encode_page`: the granule arrives as a signed integer and is masked to 64 bits. */
  function EncodePage(
    continued: bool, first: bool, last: bool, granule: int,
    serial: nat, sequence: nat, lacing: bytes, body: bytes): (r: Result<bytes, OggError>)
    ensures r.Ok? ==>
      var page := Page(continued, first, last, granule % (UINT64_MAX + 1), serial, sequence, lacing, body);
      page.WellFormed() && r.value == page.Wire()
    ensures r.Ok? <==>
      1 <= |lacing| <= MAX_LACING_VALUES && Sum(lacing) == |body| && serial <= UINT32_MAX && sequence <= UINT32_MAX
    ensures r.Err? ==>
      r.error == if lacing == [] || |lacing| > MAX_LACING_VALUES || Sum(lacing) != |body|
                 then InvalidSegmentation else FieldOverflow
  {
    if lacing == [] || |lacing| > MAX_LACING_VALUES || Sum(lacing) != |body| then
      Err(InvalidSegmentation)
    else if serial > UINT32_MAX || sequence > UINT32_MAX then
      Err(FieldOverflow)
    else
      var page := Page(continued, first, last, granule % (UINT64_MAX + 1), serial, sequence, lacing, body);
      var encoded := page.Head() + [0, 0, 0, 0] + page.Rest();
      var crc := LittleEndian(OggCrc.Checksum(encoded), 4);
      assert encoded[..22] == page.Head();
      assert encoded[26..] == page.Rest();
      Ok(encoded[..22] + crc + encoded[26..])
  }

  /** A reader's view of the page at the front of `data`: RFC 3533, section 6, with the checksum taken over the page
    * whose checksum field is zeroed, by the unreflected CRC that section prescribes. */
  function ParsePage(data: bytes): (r: Option<(Page, bytes)>)
    ensures r.Some? ==> |r.value.1| < |data|
  {
    if |data| < 27 || data[..4] != CAPTURE_PATTERN || data[4] != 0 || data[5] >= 8 then None
    else
      var count := data[26];
      if |data| < 27 + count then None
      else
        var lacing := data[27..27 + count];
        var end := 27 + count + Sum(lacing);
        if |data| < end then None
        else
          var zeroed := data[..22] + [0, 0, 0, 0] + data[26..end];
          if OggCrc.ReferenceChecksum(zeroed) != FromLittleEndian(data[22..26]) then None
          else
            var flags := data[5];
            Some((Page(flags % 2 == 1, flags / 2 % 2 == 1, flags / 4 == 1,
                       FromLittleEndian(data[6..14]), FromLittleEndian(data[14..18]), FromLittleEndian(data[18..22]),
                       lacing, data[27 + count..end]),
                  data[end..]))
  }

  /** Where each header field of a written page lies. */
  lemma WireHead(page: Page, following: bytes)
    ensures
      var data := page.Wire() + following;
      && |data| >= 27
      && data[..22] == page.Head()
      && data[..4] == CAPTURE_PATTERN && data[4] == 0 && data[5] == page.Flags()
      && data[6..14] == LittleEndian(page.granule, 8)
      && data[14..18] == LittleEndian(page.serial, 4)
      && data[18..22] == LittleEndian(page.sequence, 4)
      && data[22..26] == LittleEndian(page.StoredChecksum(), 4)
      && data[26..] == page.Rest() + following
  {
    hide LittleEndian, Page.StoredChecksum;
    var data := page.Wire() + following;
    var head := page.Head();
    assert data == head + (LittleEndian(page.StoredChecksum(), 4) + (page.Rest() + following));
    assert data[..22] == head;
    assert forall i, j :: 0 <= i <= j <= 22 ==> data[i..j] == head[i..j];
  }

  /** Where the segment table and the body of a written page lie. */
  lemma RestLayout(page: Page, following: bytes)
    requires page.WellFormed()
    ensures
      var data := page.Rest() + following;
      var count := |page.lacing|;
      var end := 1 + count + |page.body|;
      && |data| >= end
      && data[0] == count
      && data[1..1 + count] == page.lacing
      && data[1 + count..end] == page.body
      && data[..end] == page.Rest()
      && data[end..] == following
  {
    hide Sum;
  }

  lemma SliceOfSuffix(data: bytes, start: nat, i: nat, j: nat)
    requires start + i <= start + j <= |data|
    ensures data[start + i..start + j] == data[start..][i..j]
    ensures data[start + i..] == data[start..][i..]
  {}

  /** Reading back a written page, whatever follows it, yields the page and what follows. */
  lemma ParseWire(page: Page, following: bytes)
    requires page.WellFormed()
    ensures ParsePage(page.Wire() + following) == Some((page, following))
  {
    hide OggCrc.Checksum, OggCrc.ReferenceChecksum, Page.Wire, Page.Head, Page.Rest, Page.StoredChecksum;
    hide LittleEndian, FromLittleEndian, Pow256;
    var data := page.Wire() + following;
    var count := |page.lacing|;
    WireHead(page, following);
    RestLayout(page, following);
    SliceOfSuffix(data, 26, 0, 1 + count + |page.body|);
    SliceOfSuffix(data, 26, 1, 1 + count);
    SliceOfSuffix(data, 26, 1 + count, 1 + count + |page.body|);
    SliceOfSuffix(data, 26, 1 + count + |page.body|, 1 + count + |page.body|);
    WidthBounds();
    LittleEndianDecodes(page.granule, 8);
    LittleEndianDecodes(page.serial, 4);
    LittleEndianDecodes(page.sequence, 4);
    LittleEndianDecodes(page.StoredChecksum(), 4);
    StoredIsReference(page);
  }

  lemma StoredIsReference(page: Page)
    ensures page.StoredChecksum() == OggCrc.ReferenceChecksum(page.Head() + [0, 0, 0, 0] + page.Rest())
  {
    OggCrc.ChecksumIsReference(page.Head() + [0, 0, 0, 0] + page.Rest());
  }

  /** The bytes of a written page, as section 6 of RFC 3533 lays them out. */
  lemma WireLayout(page: Page)
    ensures
      var w, n := page.Wire(), |page.lacing|;
      && |w| == 27 + n + |page.body|
      && w[0] == 'O' as nat && w[1] == 'g' as nat && w[2] == 'g' as nat && w[3] == 'S' as nat && w[4] == 0
      && w[5] == (if page.continued then 1 else 0) + (if page.first then 2 else 0) + (if page.last then 4 else 0)
      && (forall i :: 0 <= i < 8 ==> w[6 + i] == page.granule / Pow256(i) % 256)
      && (forall i :: 0 <= i < 4 ==> w[14 + i] == page.serial / Pow256(i) % 256)
      && (forall i :: 0 <= i < 4 ==> w[18 + i] == page.sequence / Pow256(i) % 256)
      && (forall i :: 0 <= i < 4 ==> w[22 + i] == page.StoredChecksum() / Pow256(i) % 256)
      && w[26] == n % 256 && w[27..27 + n] == page.lacing && w[27 + n..] == page.body
  {
    hide LittleEndian, Page.StoredChecksum, Pow256;
    var w := page.Wire();
    WireHead(page, []);
    assert w + [] == w;
    forall i | 0 <= i < 8
      ensures w[6 + i] == page.granule / Pow256(i) % 256
    {
      LittleEndianAt(page.granule, 8, i);
      assert w[6 + i] == LittleEndian(page.granule, 8)[i];
    }
    forall i | 0 <= i < 4
      ensures w[14 + i] == page.serial / Pow256(i) % 256
      ensures w[18 + i] == page.sequence / Pow256(i) % 256
      ensures w[22 + i] == page.StoredChecksum() / Pow256(i) % 256
    {
      LittleEndianAt(page.serial, 4, i);
      LittleEndianAt(page.sequence, 4, i);
      LittleEndianAt(page.StoredChecksum(), 4, i);
      assert w[14 + i] == LittleEndian(page.serial, 4)[i];
      assert w[18 + i] == LittleEndian(page.sequence, 4)[i];
      assert w[22 + i] == LittleEndian(page.StoredChecksum(), 4)[i];
    }
  }
}
