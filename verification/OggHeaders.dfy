/** The two headers as a reader takes them apart (RFC 7845, sections 5.1 and 5.2). */
module OggHeaders {
  import opened Bytes
  import opened OggStream

  datatype HeadFields = HeadFields(
    channels: nat, preSkip: nat, inputSampleRate: nat, outputGain: int, mappingFamily: nat)

  datatype TagFields = TagFields(vendor: bytes, comments: seq<bytes>)

  function ParseHead(head: bytes): Option<HeadFields> {
    if |head| != 19 || head[..8] != OPUS_HEAD || head[8] != 1 then None
    else
      var gain := FromLittleEndian(head[16..18]);
      Some(HeadFields(head[9], FromLittleEndian(head[10..12]), FromLittleEndian(head[12..16]),
                      if gain < 0x8000 then gain else gain - 0x1_0000, head[18]))
  }

  /** A length-prefixed field, and what follows it. */
  function ParseField(data: bytes): (r: Option<(bytes, bytes)>)
    ensures r.Some? ==> |r.value.1| < |data|
  {
    if |data| < 4 then None
    else
      var size := FromLittleEndian(data[..4]);
      if |data| < 4 + size then None else Some((data[4..4 + size], data[4 + size..]))
  }

  function ParseComments(data: bytes, count: nat): Option<seq<bytes>> {
    if count == 0 then if data == [] then Some([]) else None
    else
      var first := ParseField(data);
      if first.None? then None
      else
        var others := ParseComments(first.value.1, count - 1);
        if others.None? then None else Some([first.value.0] + others.value)
  }

  function ParseTags(tags: bytes): Option<TagFields> {
    if |tags| < 8 || tags[..8] != OPUS_TAGS then None
    else
      var vendor := ParseField(tags[8..]);
      if vendor.None? || |vendor.value.1| < 4 then None
      else
        var rest := vendor.value.1;
        var comments := ParseComments(rest[4..], FromLittleEndian(rest[..4]));
        if comments.None? then None else Some(TagFields(vendor.value.0, comments.value))
  }

  /** The identification header tells the configuration. */
  lemma HeadDecodes(config: OggOpusConfig)
    requires config.Valid() && config.FitsFields()
    ensures ParseHead(OpusHead(config)) == Some(HeadFields(
      config.channels, config.preSkip, config.inputSampleRate, config.outputGain, config.mappingFamily))
  {
    var head := OpusHead(config);
    WidthBounds();
    LittleEndianDecodes(config.preSkip, 2);
    LittleEndianDecodes(config.inputSampleRate, 4);
    LittleEndianDecodes(config.outputGain % 0x1_0000, 2);
    assert head[..8] == OPUS_HEAD && head[8] == 1 && head[9] == config.channels && head[18] == config.mappingFamily;
    assert head[10..12] == LittleEndian(config.preSkip, 2);
    assert head[12..16] == LittleEndian(config.inputSampleRate, 4);
    assert head[16..18] == LittleEndian(config.outputGain % 0x1_0000, 2);
  }

  lemma FieldDecodes(field: bytes, following: bytes)
    requires |field| <= UINT32_MAX
    ensures ParseField(LittleEndian(|field|, 4) + field + following) == Some((field, following))
  {
    hide LittleEndian, FromLittleEndian;
    var size := LittleEndian(|field|, 4);
    var data := size + field + following;
    WidthBounds();
    LittleEndianDecodes(|field|, 4);
    assert data[..4] == size;
    assert data[4..4 + |field|] == field;
    assert data[4 + |field|..] == following;
  }

  /** The comment fields, first one first. */
  lemma {:induction false} CommentFieldsFirst(comments: seq<bytes>)
    requires comments != []
    ensures CommentFields(comments) == LittleEndian(|comments[0]|, 4) + comments[0] + CommentFields(comments[1..])
    decreases |comments|
  {
    hide LittleEndian;
    var n := |comments| - 1;
    if n == 0 {
      assert comments[..0] == [] && comments[1..] == [];
    } else {
      var last := LittleEndian(|comments[n]|, 4) + comments[n];
      CommentFieldsFirst(comments[..n]);
      assert comments[..n][1..] == comments[1..n] && comments[1..][..n - 1] == comments[1..n];
      FieldsLast(comments);
      FieldsLast(comments[1..]);
      ConcatAssociates(LittleEndian(|comments[0]|, 4) + comments[0], CommentFields(comments[1..n]), last);
    }
  }

  lemma FieldsLast(comments: seq<bytes>)
    requires comments != []
    ensures var n := |comments| - 1;
      CommentFields(comments) == CommentFields(comments[..n]) + (LittleEndian(|comments[n]|, 4) + comments[n])
  {
    hide LittleEndian;
    var n := |comments| - 1;
    ConcatAssociates(CommentFields(comments[..n]), LittleEndian(|comments[n]|, 4), comments[n]);
  }

  lemma {:induction false} CommentsDecode(comments: seq<bytes>)
    requires forall i :: 0 <= i < |comments| ==> |comments[i]| <= UINT32_MAX
    ensures ParseComments(CommentFields(comments), |comments|) == Some(comments)
  {
    if comments != [] {
      hide LittleEndian, ParseField;
      CommentFieldsFirst(comments);
      FieldDecodes(comments[0], CommentFields(comments[1..]));
      CommentsDecode(comments[1..]);
      assert comments == [comments[0]] + comments[1..];
    }
  }

  /** So does the comment header, whatever the vendor string and the comments hold. */
  lemma TagsDecode(config: OggOpusConfig)
    requires config.FitsFields()
    ensures ParseTags(OpusTags(config)) == Some(TagFields(config.vendor, config.comments))
  {
    hide LittleEndian, FromLittleEndian, CommentFields, ParseField, ParseComments;
    var tags := OpusTags(config);
    var count, fields := LittleEndian(|config.comments|, 4), CommentFields(config.comments);
    WidthBounds();
    LittleEndianDecodes(|config.comments|, 4);
    FieldDecodes(config.vendor, count + fields);
    CommentsDecode(config.comments);
    assert tags[..8] == OPUS_TAGS;
    assert tags[8..] == LittleEndian(|config.vendor|, 4) + config.vendor + (count + fields);
    assert (count + fields)[..4] == count && (count + fields)[4..] == fields;
  }

  /** The bytes of the identification header, as section 5.1 of RFC 7845 lays them out; the gain is in two's complement. */
  lemma HeadLayout(config: OggOpusConfig)
    requires config.Valid()
    ensures
      var head := OpusHead(config);
      && |head| == 19
      && (forall i :: 0 <= i < 8 ==> head[i] == "OpusHead"[i] as nat)
      && head[8] == 1 && head[9] == config.channels && head[18] == config.mappingFamily
      && (forall i :: 0 <= i < 2 ==> head[10 + i] == config.preSkip / Pow256(i) % 256)
      && (forall i :: 0 <= i < 4 ==> head[12 + i] == config.inputSampleRate / Pow256(i) % 256)
      && var gain := if config.outputGain < 0 then config.outputGain + 0x1_0000 else config.outputGain;
      && (forall i :: 0 <= i < 2 ==> head[16 + i] == gain / Pow256(i) % 256)
  {
    hide LittleEndian, Pow256;
    var head := OpusHead(config);
    forall i | 0 <= i < 4
      ensures head[12 + i] == config.inputSampleRate / Pow256(i) % 256
    {
      LittleEndianAt(config.inputSampleRate, 4, i);
      assert head[12 + i] == LittleEndian(config.inputSampleRate, 4)[i];
    }
    forall i | 0 <= i < 2
      ensures head[10 + i] == config.preSkip / Pow256(i) % 256
      ensures head[16 + i] == (config.outputGain % 0x1_0000) / Pow256(i) % 256
    {
      LittleEndianAt(config.preSkip, 2, i);
      LittleEndianAt(config.outputGain % 0x1_0000, 2, i);
      assert head[10 + i] == LittleEndian(config.preSkip, 2)[i];
      assert head[16 + i] == LittleEndian(config.outputGain % 0x1_0000, 2)[i];
    }
  }

  /** The comment header begins with its name; the lengths in it have four bytes. */
  lemma TagsLayout(config: OggOpusConfig)
    ensures
      var tags, n := OpusTags(config), |config.vendor|;
      && |tags| >= 16 + n
      && (forall i :: 0 <= i < 8 ==> tags[i] == "OpusTags"[i] as nat)
      && (forall i :: 0 <= i < 4 ==> tags[8 + i] == n / Pow256(i) % 256)
      && tags[12..12 + n] == config.vendor
      && (forall i :: 0 <= i < 4 ==> tags[12 + n + i] == |config.comments| / Pow256(i) % 256)
      && tags[16 + n..] == CommentFields(config.comments)
  {
    hide LittleEndian, Pow256, CommentFields;
    var tags, n := OpusTags(config), |config.vendor|;
    forall i | 0 <= i < 4
      ensures tags[8 + i] == n / Pow256(i) % 256
      ensures tags[12 + n + i] == |config.comments| / Pow256(i) % 256
    {
      LittleEndianAt(n, 4, i);
      LittleEndianAt(|config.comments|, 4, i);
      assert tags[8 + i] == LittleEndian(n, 4)[i];
      assert tags[12 + n + i] == LittleEndian(|config.comments|, 4)[i];
    }
  }
}
