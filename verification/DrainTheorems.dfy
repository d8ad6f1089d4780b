/** Drains, decided by agreement of byte streams; repetition and splitting. */
module DrainTheorems {
  import opened Bytes
  import opened CaptureDrain
  import opened CaptureRecords
  import opened DrainMerge

  // ----- what a request says

  /** The checks a caller can make before the call. */
  predicate Admissible(limit: nat, d: Durable, q: Request) {
    && 0 <= q.expected <= UINT32_MAX
    && Bounded(q.records, limit)
    && (q.digest.Some? ==> IsSha256(q.digest.value))
    && ReceivesLeg(d.source, q.expected, |q.records|, q.generation)
    && q.expected <= d.source.count
  }

  predicate TailFits(d: Durable, q: Request) {
    q.tail.Some? ==> ValidTail(q.tail.value, d.source, Frontier(d, q))
  }

  function Frontier(d: Durable, q: Request): int {
    Max(d.source.count, q.expected + |q.records|)
  }

  /** The asserted digest, if any, is that of the stream up to the last offered record. */
  predicate DigestHolds(hash: bytes -> Sha256, d: Durable, q: Request)
    requires Placed(d) && 0 <= q.expected <= d.source.count
  {
    q.digest.Some? ==>
      var laid := Merge(Raws(d.rows), AUDIO_RECORD_SIZE * q.expected, Join(q.records));
      var size := AUDIO_RECORD_SIZE * (q.expected + |q.records|);
      size <= |laid| && q.digest.value == hash(laid[..size])
  }

  predicate RecordsAgree(stream: bytes, q: Request)
    requires 0 <= q.expected
  {
    Agrees(stream, AUDIO_RECORD_SIZE * q.expected, Join(q.records))
  }

  function WithRecords(d: Durable, q: Request): bytes
    requires Placed(d) && 0 <= q.expected <= d.source.count
  {
    Merge(Stream(d), AUDIO_RECORD_SIZE * q.expected, Join(q.records))
  }

  /** Every offered byte is the accepted one, wherever there is one. */
  predicate SaysTheSame(d: Durable, q: Request)
    requires Placed(d) && 0 <= q.expected <= d.source.count
    requires q.tail.Some? ==> 0 <= q.tail.value.offset
  {
    && RecordsAgree(Stream(d), q)
    && (q.tail.Some? ==> Agrees(WithRecords(d, q), q.tail.value.offset, q.tail.value.data))
  }

  /** The accepted stream with the offered records and partial record laid over it. */
  function Laid(d: Durable, q: Request): bytes
    requires Placed(d) && 0 <= q.expected <= d.source.count
    requires q.tail.Some? ==> 0 <= q.tail.value.offset <= |WithRecords(d, q)|
  {
    WithTail(WithRecords(d, q), q.tail)
  }

  lemma FrontierReached(d: Durable, q: Request)
    requires Placed(d) && 0 <= q.expected <= d.source.count && Bounded(q.records, |q.records|)
    ensures AUDIO_RECORD_SIZE * Frontier(d, q) <= |WithRecords(d, q)|
    ensures TailFits(d, q) && q.tail.Some? ==> 0 <= q.tail.value.offset <= |WithRecords(d, q)|
  {
    RawsParsed(q.records);
  }

  // ----- the two ways to accept

  lemma SettlesTail(hash: bytes -> Sha256, d: Durable, appended: seq<Record>, tail: Option<Tail>, digest: Sha256)
    requires Sound(hash, d)
    requires d.source.start + d.source.count + |appended| <= d.source.limit
    requires d.source.phase.Receiving?
    requires digest == hash(Raws(d.rows + appended))
    ensures var n := d.source.count + |appended|;
      var decision := Settle(ResolveTail(d, tail, appended), d, appended, digest);
      && (decision.Refused? <==> tail.Some? && !ValidTail(tail.value, d.source, n))
      && (tail.Some? && ValidTail(tail.value, d.source, n) ==> 0 <= tail.value.offset <= |Between(d, appended)|)
      && (!decision.Refused? ==>
            && (decision.Accepted? <==> PreviousAgrees(d, appended) && TailAgrees(d, appended, tail))
            && (decision.Accepted? ==> Advanced(hash, d, decision.next, WithTail(Between(d, appended), tail), n)))
  {
    if tail.None? || ValidTail(tail.value, d.source, d.source.count + |appended|) {
      ResolvesTail(d, tail, appended);
      hide Raws, Agrees, Merge, ResolveTail;
      var r := ResolveTail(d, tail, appended);
      if r.Resolved? {
        var next := Settle(r, d, appended, digest).next;
        var n := d.source.count + |appended|;
        assert tail.Some? ==> n < d.source.LegFloor() + d.source.leg.count || tail.value.complete < n;
        assert Placed(next);
      }
    }
  }

  lemma AppendDecides(hash: bytes -> Sha256, d: Durable, raws: seq<RawRecord>, digest: Option<string>, tail: Option<Tail>)
    requires Sound(hash, d) && raws != [] && d.source.phase.Receiving?
    requires d.source.start + d.source.count + |raws| <= d.source.limit
    ensures var n := d.source.count + |raws|;
      var laid := Merge(Stream(d), AUDIO_RECORD_SIZE * d.source.count, Join(raws));
      var decision := AppendDrain(hash, d, raws, digest, tail);
      && laid == Raws(d.rows + ParseAll(raws)) && |laid| == AUDIO_RECORD_SIZE * n
      && (decision.Refused? <==>
            || (digest.Some? && digest.value != hash(laid))
            || (tail.Some? && !ValidTail(tail.value, d.source, n)))
      && (tail.Some? && ValidTail(tail.value, d.source, n) ==> 0 <= tail.value.offset <= |laid|)
      && (!decision.Refused? ==>
            && (decision.Accepted? <==>
                  && Agrees(Stream(d), AUDIO_RECORD_SIZE * d.source.count, Join(raws))
                  && (tail.Some? ==> Agrees(laid, tail.value.offset, tail.value.data)))
            && (decision.Accepted? ==> Advanced(hash, d, decision.next, WithTail(laid, tail), n)))
  {
    hide Raws, Join, Agrees, Merge, ResolveTail, Advanced;
    AppendAgrees(d, raws);
    SettlesTail(hash, d, ParseAll(raws), tail, hash(Raws(d.rows + ParseAll(raws))));
  }

  /** `Stream` up to a record boundary is records only. */
  lemma RecordPrefix(d: Durable, n: nat)
    requires n <= |d.rows|
    ensures Raws(d.rows[..n]) == Raws(d.rows)[..AUDIO_RECORD_SIZE * n]
  {
    hide Raws;
    RawsSlice(d.rows, 0, n);
    assert d.rows[0..n] == d.rows[..n];
  }

  lemma ReplayDecides(hash: bytes -> Sha256, d: Durable, e: nat, raws: seq<RawRecord>, digest: Option<string>,
                      tail: Option<Tail>)
    requires Sound(hash, d) && d.source.phase.Receiving? && e + |raws| <= d.source.count && raws != []
    ensures var laid := Merge(Stream(d), AUDIO_RECORD_SIZE * e, Join(raws));
      var agree := Agrees(Stream(d), AUDIO_RECORD_SIZE * e, Join(raws));
      var decision := ReplayOrAppend(hash, d, e, raws, digest, tail);
      && laid == Stream(d)
      && (decision.Refused? <==>
            && agree
            && (|| (digest.Some? && digest.value != hash(Raws(d.rows)[..AUDIO_RECORD_SIZE * (e + |raws|)]))
                || (tail.Some? && !ValidTail(tail.value, d.source, d.source.count))))
      && (tail.Some? && ValidTail(tail.value, d.source, d.source.count) ==> 0 <= tail.value.offset <= |laid|)
      && (!decision.Refused? ==>
            && (decision.Accepted? <==>
                  && agree
                  && (tail.Some? ==> Agrees(laid, tail.value.offset, tail.value.data)))
            && (decision.Accepted? ==> Advanced(hash, d, decision.next, WithTail(laid, tail), d.source.count)))
      && (!agree ==> decision == Contested(AUDIO_RECORD_SIZE * e, Join(raws), ReplayMismatch))
  {
    hide Raws, Join, Agrees, Merge, ResolveTail, Advanced, SameBytes;
    assert d.rows + [] == d.rows && raws[..|raws|] == raws;
    OverlapAgrees(d, e, raws);
    RecordPrefix(d, e + |raws|);
    assert d.rows[..|d.rows|] == d.rows;
    SettlesTail(hash, d, [], tail, d.source.digest);
  }

  /** Offering records that overlap the frontier is offering the part beyond it, if the overlap agrees. */
  lemma OverlapSplits(d: Durable, e: nat, raws: seq<RawRecord>)
    requires e <= |d.rows| < e + |raws|
    ensures var k := |d.rows| - e;
      var agree := SameBytes(d.rows[e..], raws[..k]);
      && (Agrees(Stream(d), AUDIO_RECORD_SIZE * e, Join(raws)) <==>
            agree && Agrees(Stream(d), AUDIO_RECORD_SIZE * |d.rows|, Join(raws[k..])))
      && (agree && Agrees(Stream(d), AUDIO_RECORD_SIZE * |d.rows|, Join(raws[k..])) ==>
            Merge(Stream(d), AUDIO_RECORD_SIZE * e, Join(raws))
            == Merge(Stream(d), AUDIO_RECORD_SIZE * |d.rows|, Join(raws[k..])))
  {
    var k := |d.rows| - e;
    hide Raws, Join, Agrees, Merge, SameBytes, Stream;
    var a, b := Join(raws[..k]), Join(raws[k..]);
    assert Join(raws) == a + b by {
      JoinAppend(raws[..k], raws[k..]);
      assert raws[..k] + raws[k..] == raws;
    }
    assert AUDIO_RECORD_SIZE * e + |a| == AUDIO_RECORD_SIZE * |d.rows| by { RawsParsed(raws[..k]); }
    assert d.rows[e..] == d.rows[e..e + k];
    OverlapAgrees(d, e, raws[..k]);
    assert AUDIO_RECORD_SIZE * e <= |Stream(d)| by { StreamReaches(d); }
    MergeTwice(Stream(d), AUDIO_RECORD_SIZE * e, a, b);
  }

  lemma StreamReaches(d: Durable)
    ensures AUDIO_RECORD_SIZE * |d.rows| <= |Stream(d)|
    ensures Stream(d.(tail := None)) == Raws(d.rows)
  {}

  /** Where the accepted rows agree, the rows with the new records are the rows merged with all of them. */
  lemma RecordsLaid(d: Durable, e: nat, raws: seq<RawRecord>)
    requires e <= |d.rows| < e + |raws|
    ensures var k := |d.rows| - e;
      var laid := Merge(Raws(d.rows), AUDIO_RECORD_SIZE * e, Join(raws));
      && (Agrees(Raws(d.rows), AUDIO_RECORD_SIZE * e, Join(raws)) <==> SameBytes(d.rows[e..], raws[..k]))
      && (SameBytes(d.rows[e..], raws[..k]) ==>
            && laid == Raws(d.rows + ParseAll(raws[k..]))
            && |laid| == AUDIO_RECORD_SIZE * (e + |raws|))
  {
    var k := |d.rows| - e;
    hide Raws, Join, SameBytes;
    StreamReaches(d);
    OverlapSplits(d.(tail := None), e, raws);
    RawsAppend(d.rows, ParseAll(raws[k..]));
    RawsParsed(raws[k..]);
  }

  predicate RowsAgree(d: Durable, q: Request)
    requires 0 <= q.expected
  {
    Agrees(Raws(d.rows), AUDIO_RECORD_SIZE * q.expected, Join(q.records))
  }

  /**
   * A drain is refused for its form, or, if its records fit the stored ones, for its digest or its tail; it is
   * accepted exactly if every byte it offers is the accepted one wherever there is one; anything else is a conflict.
   * What is accepted afterwards is the accepted stream with the offered bytes laid over it.
   */
  predicate Decided(hash: bytes -> Sha256, d: Durable, q: Request, decision: Decision)
    requires Placed(d) && 0 <= q.expected <= d.source.count
  {
    && (TailFits(d, q) && q.tail.Some? ==> 0 <= q.tail.value.offset <= |WithRecords(d, q)|)
    && (decision.Refused? <==> RowsAgree(d, q) && !(DigestHolds(hash, d, q) && TailFits(d, q)))
    && (TailFits(d, q) && !decision.Refused? ==>
          && (decision.Accepted? <==> SaysTheSame(d, q))
          && (decision.Accepted? ==> Advanced(hash, d, decision.next, Laid(d, q), Frontier(d, q))))
    && (!RowsAgree(d, q) ==>
          decision == Contested(q.expected * AUDIO_RECORD_SIZE, Join(q.records), ReplayMismatch))
  }

  /** What `Admissible` leaves for the decision proper. */
  predicate Placeable(d: Durable, q: Request) {
    && Placed(d)
    && d.source.phase.Receiving?
    && Bounded(q.records, |q.records|)
    && 0 <= q.expected <= d.source.count
    && d.source.start + q.expected + |q.records| <= d.source.limit
  }

  lemma InsideDecides(hash: bytes -> Sha256, d: Durable, q: Request)
    requires Sound(hash, d) && Placeable(d, q) && q.expected + |q.records| <= d.source.count
    ensures Decided(hash, d, q, ReplayOrAppend(hash, d, q.expected, q.records, q.digest, q.tail))
  {
    var e, raws: seq<RawRecord> := q.expected, q.records;
    hide Raws, Join, Agrees, Merge, ResolveTail, Advanced, ReplayOrAppend, SameBytes, ValidTail;
    assert RowsAgree(d, q) == RecordsAgree(Stream(d), q) && Merge(Raws(d.rows), AUDIO_RECORD_SIZE * e, Join(raws)) == Raws(d.rows)
    by {
      InsideRows(d, e, raws);
    }
    ReplayDecides(hash, d, e, raws, q.digest, q.tail);
    assert Frontier(d, q) == d.source.count;
  }

  lemma InsideRows(d: Durable, e: nat, raws: seq<RawRecord>)
    requires e + |raws| <= |d.rows|
    ensures Agrees(Raws(d.rows), AUDIO_RECORD_SIZE * e, Join(raws)) == Agrees(Stream(d), AUDIO_RECORD_SIZE * e, Join(raws))
    ensures Merge(Raws(d.rows), AUDIO_RECORD_SIZE * e, Join(raws)) == Raws(d.rows)
  {
    hide Raws, Join, SameBytes;
    OverlapAgrees(d, e, raws);
    OverlapAgrees(d.(tail := None), e, raws);
    StreamReaches(d);
  }

  function AppendOrContest(hash: bytes -> Sha256, d: Durable, q: Request): Decision
    requires Placeable(d, q) && q.expected + |q.records| > d.source.count
  {
    var raws: seq<RawRecord> := q.records;
    var k := d.source.count - q.expected;
    if SameBytes(d.rows[q.expected..], raws[..k]) then AppendDrain(hash, d, raws[k..], q.digest, q.tail)
    else Contested(q.expected * AUDIO_RECORD_SIZE, Join(raws), ReplayMismatch)
  }

  lemma BeyondAppends(hash: bytes -> Sha256, d: Durable, q: Request)
    requires Placeable(d, q) && q.expected + |q.records| > d.source.count
    ensures AppendOrContest(hash, d, q) ==
      if q.expected < d.source.count then ReplayOrAppend(hash, d, q.expected, q.records, q.digest, q.tail)
      else AppendDrain(hash, d, q.records, q.digest, q.tail)
  {
    hide Raws, Join, ResolveTail, AppendDrain;
    var raws: seq<RawRecord> := q.records;
    var k := d.source.count - q.expected;
    assert d.rows[q.expected..q.expected + k] == d.rows[q.expected..];
    if k == 0 {
      assert raws[k..] == raws && raws[..k] == [] && d.rows[q.expected..] == [];
    }
  }

  lemma BeyondContests(hash: bytes -> Sha256, d: Durable, q: Request)
    requires Placeable(d, q) && q.expected + |q.records| > d.source.count
    requires var raws: seq<RawRecord> := q.records;
      !SameBytes(d.rows[q.expected..], raws[..d.source.count - q.expected])
    ensures Decided(hash, d, q, AppendOrContest(hash, d, q))
  {
    hide Raws, Join, Agrees, Merge, ResolveTail, Advanced, AppendDrain, SameBytes, ValidTail;
    RecordsLaid(d, q.expected, q.records);
    OverlapSplits(d, q.expected, q.records);
    FrontierReached(d, q);
  }

  /** The accepted rows agree; what is beyond them is `suffix`. */
  predicate Overhangs(d: Durable, q: Request, raws: seq<RawRecord>, suffix: seq<RawRecord>) {
    && Placeable(d, q)
    && raws == q.records
    && q.expected + |raws| > d.source.count
    && suffix == raws[d.source.count - q.expected..]
    && SameBytes(d.rows[q.expected..], raws[..d.source.count - q.expected])
  }

  lemma OverhangRows(hash: bytes -> Sha256, d: Durable, q: Request, raws: seq<RawRecord>, suffix: seq<RawRecord>)
    requires Overhangs(d, q, raws, suffix)
    ensures RowsAgree(d, q)
    ensures DigestHolds(hash, d, q) <==> q.digest.Some? ==> q.digest.value == hash(Raws(d.rows + ParseAll(suffix)))
  {
    hide Raws, Join, Agrees, Merge, SameBytes, Stream, ParseAll;
    RecordsLaid(d, q.expected, raws);
    var laid := Merge(Raws(d.rows), AUDIO_RECORD_SIZE * q.expected, Join(raws));
    assert laid[..AUDIO_RECORD_SIZE * (q.expected + |raws|)] == laid;
  }

  lemma OverhangStream(d: Durable, q: Request, raws: seq<RawRecord>, suffix: seq<RawRecord>)
    requires Overhangs(d, q, raws, suffix)
    ensures Frontier(d, q) == d.source.count + |suffix|
    ensures RecordsAgree(Stream(d), q) <==> Agrees(Stream(d), AUDIO_RECORD_SIZE * d.source.count, Join(suffix))
    ensures RecordsAgree(Stream(d), q) ==>
      WithRecords(d, q) == Merge(Stream(d), AUDIO_RECORD_SIZE * d.source.count, Join(suffix))
  {
    hide Raws, Join, Agrees, Merge, SameBytes, Stream, ParseAll;
    OverlapSplits(d, q.expected, raws);
  }

  lemma BeyondSettles(hash: bytes -> Sha256, d: Durable, q: Request, raws: seq<RawRecord>, suffix: seq<RawRecord>)
    requires Sound(hash, d) && Overhangs(d, q, raws, suffix)
    ensures Decided(hash, d, q, AppendOrContest(hash, d, q))
  {
    hide Raws, Join, Agrees, Merge, Advanced, AppendDrain, SameBytes, ValidTail, DigestHolds, RecordsAgree, WithRecords,
      RowsAgree;
    OverhangRows(hash, d, q, raws, suffix);
    OverhangStream(d, q, raws, suffix);
    FrontierReached(d, q);
    AppendDecides(hash, d, suffix, q.digest, q.tail);
  }

  lemma DrainDecides(hash: bytes -> Sha256, limit: nat, d: Durable, q: Request)
    requires Sound(hash, d)
    ensures var decision := DecideDrain(hash, limit, d, q);
      if Admissible(limit, d, q) then Decided(hash, d, q, decision) else decision == Refused
  {
    hide Decided, ReplayOrAppend, AppendDrain, AppendOrContest;
    if Admissible(limit, d, q) {
      assert Placeable(d, q);
      if q.expected + |q.records| <= d.source.count {
        InsideDecides(hash, d, q);
      } else {
        var raws: seq<RawRecord> := q.records;
        if SameBytes(d.rows[q.expected..], raws[..d.source.count - q.expected]) {
          BeyondSettles(hash, d, q, raws, raws[d.source.count - q.expected..]);
        } else {
          BeyondContests(hash, d, q);
        }
        BeyondAppends(hash, d, q);
      }
    }
  }
}
