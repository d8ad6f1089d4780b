/** Records as bytes, and byte streams laid over each other. */
module CaptureRecords {
  import opened Bytes

  const AUDIO_RECORD_SIZE: nat := 444
  const AUDIO_PAYLOAD_SIZE: nat := 440
  const TAIL_MAX_BYTES: nat := 443

  datatype RecordData = RecordData(timestamp: nat, payload: bytes)
  {
    predicate WellFormed() {
      timestamp <= UINT32_MAX && |payload| == AUDIO_PAYLOAD_SIZE
    }

    /** `CaptureRecord.raw_bytes`. */
    function RawBytes(): (raw: bytes)
      ensures |raw| == 4 + |payload|
    {
      BigEndian(timestamp, 4) + payload
    }
  }

  type Record = r: RecordData | r.WellFormed() witness RecordData(0, seq(AUDIO_PAYLOAD_SIZE, _ => 0))

  type RawRecord = raw: bytes | |raw| == AUDIO_RECORD_SIZE witness seq(AUDIO_RECORD_SIZE, _ => 0)

  /** `_parse_record`. */
  function ParseRecord(raw: RawRecord): (record: Record)
    ensures record.RawBytes() == raw
  {
    BigEndianEncodes(raw[..4]);
    WidthBounds();
    assert raw[..4] + raw[4..] == raw;
    RecordData(FromBigEndian(raw[..4]), raw[4..])
  }

  /** A stored record and its wire form determine each other. */
  lemma ParseRaw(record: Record)
    ensures |record.RawBytes()| == AUDIO_RECORD_SIZE && ParseRecord(record.RawBytes()) == record
  {
    WidthBounds();
    BigEndianDecodes(record.timestamp, 4);
    assert record.RawBytes()[..4] == BigEndian(record.timestamp, 4);
    assert record.RawBytes()[4..] == record.payload;
  }

  function ParseAll(raws: seq<RawRecord>): (records: seq<Record>)
    ensures |records| == |raws|
  {
    seq(|raws|, i requires 0 <= i < |raws| => ParseRecord(raws[i]))
  }

  /** The wire bytes of stored records, one after another. */
  function Raws(records: seq<Record>): (raw: bytes)
    ensures |raw| == AUDIO_RECORD_SIZE * |records|
    decreases |records|
  {
    if records == [] then [] else Raws(records[..|records| - 1]) + records[|records| - 1].RawBytes()
  }

  lemma {:induction false} RawsAppend(a: seq<Record>, b: seq<Record>)
    ensures Raws(a + b) == Raws(a) + Raws(b)
    decreases |b|
  {
    if b == [] {
      assert a + b == a;
    } else {
      var n := |b| - 1;
      assert (a + b)[..|a| + n] == a + b[..n];
      RawsAppend(a, b[..n]);
      ConcatAssociates(Raws(a), Raws(b[..n]), b[n].RawBytes());
    }
  }

  lemma {:induction false} RawsParsed(raws: seq<RawRecord>)
    ensures Raws(ParseAll(raws)) == Join(raws)
    ensures |Join(raws)| == AUDIO_RECORD_SIZE * |raws|
    decreases |raws|
  {
    if raws != [] {
      var n := |raws| - 1;
      RawsParsed(raws[..n]);
      assert ParseAll(raws)[..n] == ParseAll(raws[..n]);
      assert raws == raws[..n] + [raws[n]];
      JoinAppend(raws[..n], [raws[n]]);
      assert Join([raws[n]]) == raws[n];
    }
  }

  lemma {:induction false} RawsAt(records: seq<Record>, i: nat)
    requires i < |records|
    ensures Raws(records)[AUDIO_RECORD_SIZE * i..AUDIO_RECORD_SIZE * (i + 1)] == records[i].RawBytes()
    ensures Raws(records[..i]) == Raws(records)[..AUDIO_RECORD_SIZE * i]
  {
    RawsAppend(records[..i], records[i..]);
    RawsAppend([records[i]], records[i + 1..]);
    assert records[..i] + records[i..] == records;
    assert [records[i]] + records[i + 1..] == records[i..];
    assert [records[i]][..0] == [];
    assert Raws([records[i]]) == records[i].RawBytes();
  }

  lemma MiddleOf(a: bytes, b: bytes, c: bytes)
    ensures (a + b + c)[|a|..|a| + |b|] == b
  {}

  lemma RawsSlice(records: seq<Record>, from: nat, to: nat)
    requires from <= to <= |records|
    ensures Raws(records[from..to]) == Raws(records)[AUDIO_RECORD_SIZE * from..AUDIO_RECORD_SIZE * to]
  {
    hide Raws;
    var a, b, c := records[..from], records[from..to], records[to..];
    assert records == a + b + c;
    RawsAppend(a, b);
    RawsAppend(a + b, c);
    MiddleOf(Raws(a), Raws(b), Raws(c));
  }

  /** Equal bytes, equal records. */
  lemma {:induction false} RawsInjective(a: seq<Record>, b: seq<Record>)
    requires Raws(a) == Raws(b)
    ensures a == b
    decreases |a|
  {
    assert |a| == |b|;
    if a != [] {
      var n := |a| - 1;
      var size := AUDIO_RECORD_SIZE * n;
      assert Raws(a)[..size] == Raws(a[..n]) && Raws(b)[..size] == Raws(b[..n]);
      assert Raws(a)[size..] == a[n].RawBytes() && Raws(b)[size..] == b[n].RawBytes();
      RawsInjective(a[..n], b[..n]);
      ParseRaw(a[n]);
      ParseRaw(b[n]);
      assert a == a[..n] + [a[n]] && b == b[..n] + [b[n]];
    }
  }

  // ----- byte streams

  /** `offered`, laid over `stream` from `offset`, says nothing else where both have a byte. */
  predicate Agrees(stream: bytes, offset: nat, offered: bytes) {
    && offset <= |stream|
    && forall i :: 0 <= i < |offered| && offset + i < |stream| ==> stream[offset + i] == offered[i]
  }

  /** What both together say. */
  function Merge(stream: bytes, offset: nat, offered: bytes): bytes
    requires offset <= |stream|
  {
    if offset + |offered| <= |stream| then stream else stream[..offset] + offered
  }

  lemma MergeExtends(stream: bytes, offset: nat, offered: bytes)
    requires Agrees(stream, offset, offered)
    ensures stream <= Merge(stream, offset, offered)
    ensures offset + |offered| <= |Merge(stream, offset, offered)|
    ensures Merge(stream, offset, offered)[offset..offset + |offered|] == offered
  {
    var merged := Merge(stream, offset, offered);
    if offset + |offered| <= |stream| {
      assert merged[offset..offset + |offered|] == offered;
    } else {
      forall i | 0 <= i < |stream|
        ensures merged[i] == stream[i]
      {
        if i >= offset {
          assert stream[offset + (i - offset)] == offered[i - offset];
        }
      }
    }
  }

  /** Laying down two pieces in turn is laying them down joined. */
  lemma MergeTwice(stream: bytes, offset: nat, a: bytes, b: bytes)
    requires offset <= |stream|
    ensures Agrees(stream, offset, a + b) <==>
      Agrees(stream, offset, a) && Agrees(Merge(stream, offset, a), offset + |a|, b)
    ensures Agrees(stream, offset, a + b) ==>
      Merge(Merge(stream, offset, a), offset + |a|, b) == Merge(stream, offset, a + b)
  {
    var first := Merge(stream, offset, a);
    if Agrees(stream, offset, a + b) {
      forall i | 0 <= i < |a| && offset + i < |stream|
        ensures stream[offset + i] == a[i]
      {
        assert (a + b)[i] == a[i];
      }
      MergeExtends(stream, offset, a);
      forall i | 0 <= i < |b| && offset + |a| + i < |first|
        ensures first[offset + |a| + i] == b[i]
      {
        assert offset + |a| + i < |stream|;
        assert (a + b)[|a| + i] == b[i];
        assert stream[offset + (|a| + i)] == (a + b)[|a| + i];
      }
      assert Merge(first, offset + |a|, b) == Merge(stream, offset, a + b);
    }
    if Agrees(stream, offset, a) && Agrees(first, offset + |a|, b) {
      MergeExtends(stream, offset, a);
      forall i | 0 <= i < |a + b| && offset + i < |stream|
        ensures stream[offset + i] == (a + b)[i]
      {
        if i >= |a| {
          assert first[offset + |a| + (i - |a|)] == b[i - |a|];
          assert first[offset + i] == stream[offset + i];
        }
      }
    }
  }
}
