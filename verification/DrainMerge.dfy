/** What a drain does, said of byte streams alone: it lays the offered bytes over the accepted ones. */
module DrainMerge {
  import opened Bytes
  import opened CaptureDrain
  import opened CaptureRecords

  // ----- byte streams and records

  lemma AgreesWithin(a: bytes, b: bytes, offset: nat, offered: bytes)
    requires offset + |offered| <= |a|
    ensures Agrees(a + b, offset, offered) <==> a[offset..offset + |offered|] == offered
    ensures Merge(a + b, offset, offered) == a + b
  {
    if a[offset..offset + |offered|] == offered {
      assert forall i :: 0 <= i < |offered| ==> a[offset..offset + |offered|][i] == offered[i];
    }
    if Agrees(a + b, offset, offered) {
      assert forall i :: 0 <= i < |offered| ==> (a + b)[offset + i] == offered[i];
    }
  }

  lemma SliceOfSlice(a: bytes, offset: nat, part: bytes, size: nat)
    requires offset + |part| <= |a| && a[offset..offset + |part|] == part && size <= |part|
    ensures a[offset..offset + size] == part[..size]
  {
    assert a[offset..offset + |part|][..size] == a[offset..offset + size];
  }

  lemma AgreesAtEnd(a: bytes, b: bytes, offered: bytes)
    ensures var shared := Min(|b|, |offered|);
      Agrees(a + b, |a|, offered) <==> b[..shared] == offered[..shared]
    ensures Merge(a + b, |a|, offered) == a + (if |offered| > |b| then offered else b)
  {
    var shared := Min(|b|, |offered|);
    if Agrees(a + b, |a|, offered) {
      forall i | 0 <= i < shared
        ensures b[i] == offered[i]
      {
        assert (a + b)[|a| + i] == b[i];
      }
    }
    if b[..shared] == offered[..shared] {
      forall i | 0 <= i < |offered| && |a| + i < |a + b|
        ensures (a + b)[|a| + i] == offered[i]
      {
        assert b[..shared][i] == offered[..shared][i];
      }
    }
  }

  lemma SameBytesRaws(rows: seq<Record>, raws: seq<RawRecord>)
    ensures SameBytes(rows, raws) <==> Raws(rows) == Join(raws)
  {
    RawsParsed(raws);
    if SameBytes(rows, raws) {
      forall i | 0 <= i < |rows|
        ensures rows[i] == ParseAll(raws)[i]
      {
        ParseRaw(rows[i]);
      }
      assert rows == ParseAll(raws);
    }
    if Raws(rows) == Join(raws) {
      RawsInjective(rows, ParseAll(raws));
    }
  }

  lemma OverlapAgrees(d: Durable, e: nat, raws: seq<RawRecord>)
    requires e + |raws| <= |d.rows|
    ensures SameBytes(d.rows[e..e + |raws|], raws) <==> Agrees(Stream(d), AUDIO_RECORD_SIZE * e, Join(raws))
    ensures Merge(Stream(d), AUDIO_RECORD_SIZE * e, Join(raws)) == Stream(d)
  {
    hide SameBytes, Raws, Join, Agrees, Merge;
    var overlap, offered := d.rows[e..e + |raws|], Join(raws);
    var offset, end := AUDIO_RECORD_SIZE * e, AUDIO_RECORD_SIZE * (e + |raws|);
    assert |offered| == AUDIO_RECORD_SIZE * |raws| by { RawsParsed(raws); }
    assert Raws(overlap) == Raws(d.rows)[offset..end] by { RawsSlice(d.rows, e, e + |raws|); }
    assert SameBytes(overlap, raws) <==> Raws(overlap) == offered by { SameBytesRaws(overlap, raws); }
    AgreesWithin(Raws(d.rows), TailBytes(d.tail), offset, offered);
  }

  lemma JoinBegins(raws: seq<RawRecord>)
    requires raws != []
    ensures raws[0] <= Join(raws)
  {}

  lemma PrefixOfPrefix(t: bytes, first: bytes, all: bytes)
    requires |t| <= |first| && first <= all
    ensures t[..Min(|t|, |all|)] == all[..Min(|t|, |all|)] <==> t <= first
  {
    assert all[..|t|] == first[..|t|];
  }

  lemma AppendAgrees(d: Durable, raws: seq<RawRecord>)
    requires Placed(d) && raws != []
    ensures Agrees(Stream(d), AUDIO_RECORD_SIZE * |d.rows|, Join(raws)) <==>
      TailBytes(d.tail) <= ParseAll(raws)[0].RawBytes()
    ensures Merge(Stream(d), AUDIO_RECORD_SIZE * |d.rows|, Join(raws)) == Raws(d.rows + ParseAll(raws))
  {
    hide Raws, Join, Agrees, Merge;
    RawsParsed(raws);
    RawsAppend(d.rows, ParseAll(raws));
    AgreesAtEnd(Raws(d.rows), TailBytes(d.tail), Join(raws));
    JoinBegins(raws);
    PrefixOfPrefix(TailBytes(d.tail), raws[0], Join(raws));
  }

  // ----- the partial record

  /** The stream once the whole records are in. */
  function Between(d: Durable, appended: seq<Record>): bytes {
    if appended == [] then Stream(d) else Raws(d.rows + appended)
  }

  lemma StaleTail(d: Durable, appended: seq<Record>, tail: Tail)
    requires Placed(d) && ValidTail(tail, d.source, d.source.count + |appended|)
    requires tail.complete < d.source.count + |appended|
    ensures Agrees(Between(d, appended), tail.offset, tail.data) <==>
      tail.data <= RowAt(d, appended, tail.complete)
    ensures Merge(Between(d, appended), tail.offset, tail.data) == Between(d, appended)
  {
    hide Raws, Agrees, Merge;
    var all := d.rows + appended;
    var row := all[tail.complete].RawBytes();
    assert row == RowAt(d, appended, tail.complete);
    var rest := if appended == [] then TailBytes(d.tail) else [];
    assert Between(d, appended) == Raws(all) + rest by {
      assert appended == [] ==> all == d.rows;
    }
    RawsAt(all, tail.complete);
    ParseRaw(all[tail.complete]);
    AgreesWithin(Raws(all), rest, tail.offset, tail.data);
    SliceOfSlice(Raws(all), tail.offset, row, |tail.data|);
  }

  lemma FrontierTail(d: Durable, appended: seq<Record>, tail: Tail)
    requires Placed(d) && ValidTail(tail, d.source, d.source.count + |appended|)
    requires tail.complete == d.source.count + |appended|
    ensures var previous := if appended == [] then TailBytes(d.tail) else [];
      var shared := Min(|previous|, |tail.data|);
      && (Agrees(Between(d, appended), tail.offset, tail.data) <==> previous[..shared] == tail.data[..shared])
      && Merge(Between(d, appended), tail.offset, tail.data)
         == Raws(d.rows + appended) + (if |tail.data| > |previous| then tail.data else previous)
  {
    var previous := if appended == [] then TailBytes(d.tail) else [];
    var all := d.rows + appended;
    assert Between(d, appended) == Raws(all) + previous by {
      assert appended == [] ==> all == d.rows;
    }
    AgreesAtEnd(Raws(all), previous, tail.data);
  }

  /** The incoming partial record, if any, agrees with what is accepted once the records are in. */
  predicate TailAgrees(d: Durable, appended: seq<Record>, incoming: Option<Tail>)
    requires incoming.Some? ==> 0 <= incoming.value.offset
  {
    incoming.Some? ==> Agrees(Between(d, appended), incoming.value.offset, incoming.value.data)
  }

  function WithTail(stream: bytes, incoming: Option<Tail>): bytes
    requires incoming.Some? ==> 0 <= incoming.value.offset <= |stream|
  {
    if incoming.Some? then Merge(stream, incoming.value.offset, incoming.value.data) else stream
  }

  predicate PreviousAgrees(d: Durable, appended: seq<Record>) {
    appended != [] ==> TailBytes(d.tail) <= appended[0].RawBytes()
  }

  lemma ResolvesTail(d: Durable, incoming: Option<Tail>, appended: seq<Record>)
    requires Placed(d)
    requires incoming.Some? ==> ValidTail(incoming.value, d.source, d.source.count + |appended|)
    ensures incoming.Some? ==> incoming.value.offset <= |Between(d, appended)|
    ensures var r := ResolveTail(d, incoming, appended);
      && !r.Invalid?
      && (r.Resolved? <==> PreviousAgrees(d, appended) && TailAgrees(d, appended, incoming))
      && (r.Resolved? ==>
            && Raws(d.rows + appended) + TailBytes(r.tail) == WithTail(Between(d, appended), incoming)
            && (r.tail.Some? && r.tail != d.tail ==> r.tail == incoming)
            && (r.tail.Some? ==> TailPlaced(r.tail.value, d.source.count + |appended|))
            && (appended == [] && WithTail(Stream(d), incoming) == Stream(d) ==> r.tail == d.tail))
  {
    RawsAppend(d.rows, appended);
    hide Raws, Agrees, Merge;
    assert appended == [] ==> d.rows + appended == d.rows;
    if incoming.Some? {
      if incoming.value.complete < d.source.count + |appended| {
        StaleTail(d, appended, incoming.value);
      } else {
        FrontierTail(d, appended, incoming.value);
      }
    }
  }

  // ----- the whole drain

  /** `next` is `d` with exactly these bytes and this many whole records; nothing else moved. */
  predicate Advanced(hash: bytes -> Sha256, d: Durable, next: Durable, stream: bytes, count: nat) {
    && Sound(hash, next)
    && next.source == d.source.(count := count, digest := next.source.digest)
    && next.conflicts == d.conflicts
    && next.custody == d.custody
    && Stream(next) == stream
    && (stream == Stream(d) && count == d.source.count ==> next.tail == d.tail)
    && (next.tail.Some? && next.tail != d.tail ==> next.tail.value.generation == d.source.generation)
  }

  /** Bytes and count leave no freedom. */
  lemma AdvancedUnique(hash: bytes -> Sha256, d: Durable, a: Durable, b: Durable, stream: bytes, count: nat)
    requires Sound(hash, d) && Stream(d) <= stream && d.source.count <= count
    requires Advanced(hash, d, a, stream, count) && Advanced(hash, d, b, stream, count)
    ensures a == b
  {
    var size := AUDIO_RECORD_SIZE * count;
    assert Raws(a.rows) == stream[..size] && Raws(b.rows) == stream[..size];
    RawsInjective(a.rows, b.rows);
    assert TailBytes(a.tail) == stream[size..] && TailBytes(b.tail) == stream[size..];
    if count == d.source.count && stream != Stream(d) {
      assert stream == stream[..size] + stream[size..];
      assert stream[..size] == Stream(d)[..size] == Raws(d.rows);
      assert TailBytes(d.tail) != stream[size..];
    }
  }

  lemma AdvancedKeeps(hash: bytes -> Sha256, d: Durable, next: Durable, stream: bytes, count: nat)
    requires Sound(hash, d) && Advanced(hash, d, next, stream, count)
    requires Stream(d) <= stream && d.source.count <= count
    ensures d.rows <= next.rows
  {
    var size := AUDIO_RECORD_SIZE * |d.rows|;
    RawsSlice(next.rows, 0, |d.rows|);
    assert Raws(next.rows[..|d.rows|]) == Raws(d.rows) by {
      assert next.rows[..|d.rows|] == next.rows[0..|d.rows|];
      assert Raws(next.rows) == stream[..AUDIO_RECORD_SIZE * count];
      assert Raws(next.rows)[..size] == stream[..size] == Stream(d)[..size] == Raws(d.rows);
    }
    RawsInjective(next.rows[..|d.rows|], d.rows);
  }
}
