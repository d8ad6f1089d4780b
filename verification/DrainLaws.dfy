/** Growth and repetition: what one accepted drain or tail does, and that a second one does nothing. */
module DrainLaws {
  import opened Bytes
  import opened CaptureDrain
  import opened CaptureRecords
  import opened DrainMerge
  import opened DrainTheorems

  /** `next` is `d` with more accepted bytes: no accepted byte or row is ever given up. */
  predicate Grown(d: Durable, next: Durable) {
    Stream(d) <= Stream(next) && d.rows <= next.rows
  }

  /** The request's form is right and it contradicts no accepted byte. */
  predicate Agreeable(limit: nat, d: Durable, q: Request) {
    && Placed(d)
    && Admissible(limit, d, q)
    && TailFits(d, q)
    && SaysTheSame(d, q)
  }

  /** Without an asserted digest, form and agreement decide. */
  lemma PlainDrain(hash: bytes -> Sha256, limit: nat, d: Durable, q: Request)
    requires Sound(hash, d) && q.digest.None?
    ensures var decision := DecideDrain(hash, limit, d, q);
      && (decision.Accepted? <==> Agreeable(limit, d, q))
      && (decision.Accepted? ==>
            && (q.tail.Some? ==> 0 <= q.tail.value.offset <= |WithRecords(d, q)|)
            && Advanced(hash, d, decision.next, Laid(d, q), Frontier(d, q)))
  {
    hide Raws, Join, Agrees, Merge, Advanced, DecideDrain;
    DrainDecides(hash, limit, d, q);
  }

  lemma AcceptedFits(hash: bytes -> Sha256, limit: nat, d: Durable, q: Request)
    requires Sound(hash, d) && DecideDrain(hash, limit, d, q).Accepted?
    ensures Admissible(limit, d, q) && TailFits(d, q)
    ensures q.tail.Some? ==> 0 <= q.tail.value.offset <= |WithRecords(d, q)|
    ensures SaysTheSame(d, q)
    ensures Advanced(hash, d, DecideDrain(hash, limit, d, q).next, Laid(d, q), Frontier(d, q))
  {
    hide Raws, Join, Agrees, Merge, Advanced, DecideDrain;
    DrainDecides(hash, limit, d, q);
  }

  lemma LaidExtends(d: Durable, q: Request)
    requires Placed(d) && 0 <= q.expected <= d.source.count
    requires q.tail.Some? ==> 0 <= q.tail.value.offset <= |WithRecords(d, q)|
    requires SaysTheSame(d, q)
    ensures Stream(d) <= WithRecords(d, q)
    ensures WithRecords(d, q) <= Laid(d, q)
    ensures var offset := AUDIO_RECORD_SIZE * q.expected;
      && offset + |Join(q.records)| <= |WithRecords(d, q)|
      && WithRecords(d, q)[offset..offset + |Join(q.records)|] == Join(q.records)
  {
    hide Raws, Join, Agrees, Stream;
    MergeExtends(Stream(d), AUDIO_RECORD_SIZE * q.expected, Join(q.records));
    if q.tail.Some? {
      MergeExtends(WithRecords(d, q), q.tail.value.offset, q.tail.value.data);
    }
  }

  /** An accepted drain only extends what is stored. */
  lemma DrainGrows(hash: bytes -> Sha256, limit: nat, d: Durable, q: Request)
    requires Sound(hash, d) && DecideDrain(hash, limit, d, q).Accepted?
    ensures var next := DecideDrain(hash, limit, d, q).next;
      && Sound(hash, next)
      && Grown(d, next)
      && next.source.count == Max(d.source.count, q.expected + |q.records|)
      && Admissible(limit, d, q)
      && RecordsAgree(Stream(d), q)
      && WithRecords(d, q) <= Stream(next)
  {
    var next := DecideDrain(hash, limit, d, q).next;
    hide Raws, Join, Agrees, Merge, DecideDrain, Laid, WithRecords, TailFits;
    AcceptedFits(hash, limit, d, q);
    LaidExtends(d, q);
    AdvancedKeeps(hash, d, next, Laid(d, q), Frontier(d, q));
  }

  /** An accepted drain stores what it was given, where it was offered. */
  lemma DrainStores(hash: bytes -> Sha256, limit: nat, d: Durable, q: Request)
    requires Sound(hash, d) && DecideDrain(hash, limit, d, q).Accepted?
    ensures var next := DecideDrain(hash, limit, d, q).next;
      && Sound(hash, next)
      && Grown(d, next)
      && next.source.count == Max(d.source.count, q.expected + |q.records|)
      && Bounded(q.records, limit)
      && 0 <= q.expected
      && next.rows[q.expected..q.expected + |q.records|] == ParseAll(q.records)
  {
    hide Raws, Join, DecideDrain, Agrees;
    DrainGrows(hash, limit, d, q);
    MergeExtends(Stream(d), AUDIO_RECORD_SIZE * q.expected, Join(q.records));
    hide Merge;
    StoredRecords(DecideDrain(hash, limit, d, q).next, WithRecords(d, q), q.expected, q.records);
  }

  lemma StoredRecords(next: Durable, laid: bytes, e: nat, raws: seq<RawRecord>)
    requires laid <= Stream(next) && e + |raws| <= |next.rows|
    requires AUDIO_RECORD_SIZE * e + |Join(raws)| <= |laid|
    requires laid[AUDIO_RECORD_SIZE * e..AUDIO_RECORD_SIZE * e + |Join(raws)|] == Join(raws)
    ensures next.rows[e..e + |raws|] == ParseAll(raws)
  {
    hide Raws, Join;
    RawsParsed(raws);
    RawsSlice(next.rows, e, e + |raws|);
    assert Raws(next.rows[e..e + |raws|]) == Stream(next)[AUDIO_RECORD_SIZE * e..AUDIO_RECORD_SIZE * (e + |raws|)];
    RawsInjective(next.rows[e..e + |raws|], ParseAll(raws));
  }

  // ----- repetition

  lemma ResolvesAgain(d: Durable, incoming: Option<Tail>, appended: seq<Record>, next: Durable)
    requires Placed(d) && Placed(next)
    requires ResolveTail(d, incoming, appended) == Resolved(next.tail)
    requires next.rows == d.rows + appended
    requires next.source == d.source.(count := next.source.count, digest := next.source.digest)
    ensures ResolveTail(next, incoming, []) == Resolved(next.tail)
  {
    if incoming.Some? && incoming.value.complete < next.source.count {
      assert RowAt(next, [], incoming.value.complete) == RowAt(d, appended, incoming.value.complete);
    }
  }

  /** The records of an admissible request that lie beyond the frontier. */
  function Suffix(d: Durable, q: Request): seq<RawRecord>
    requires Bounded(q.records, |q.records|) && 0 <= q.expected
  {
    if q.expected + |q.records| <= d.source.count then []
    else if q.expected <= d.source.count then q.records[d.source.count - q.expected..]
    else []
  }

  lemma AcceptedShape(hash: bytes -> Sha256, limit: nat, d: Durable, q: Request)
    requires Sound(hash, d) && DecideDrain(hash, limit, d, q).Accepted?
    ensures Admissible(limit, d, q)
    ensures var next := DecideDrain(hash, limit, d, q).next;
      && ResolveTail(d, q.tail, ParseAll(Suffix(d, q))) == Resolved(next.tail)
      && next.rows == d.rows + ParseAll(Suffix(d, q))
      && next.source == d.source.(count := next.source.count, digest := next.source.digest)
      && next.conflicts == d.conflicts && next.custody == d.custody
  {
    hide ResolveTail, Raws, Join;
    var raws: seq<RawRecord> := q.records;
    assert raws[0..] == raws && d.rows + [] == d.rows && ParseAll([]) == [];
  }

  /** A request whose records are all stored already only settles its tail. */
  lemma ReplaySettles(hash: bytes -> Sha256, limit: nat, d: Durable, q: Request)
    requires Sound(hash, d) && Admissible(limit, d, q) && q.expected + |q.records| <= d.source.count
    requires d.rows[q.expected..q.expected + |q.records|] == ParseAll(q.records)
    requires q.digest.Some? ==> q.digest.value == hash(Raws(d.rows[..q.expected + |q.records|]))
    requires ResolveTail(d, q.tail, []) == Resolved(d.tail)
    ensures DecideDrain(hash, limit, d, q) == Accepted(d)
  {
    hide ResolveTail, Raws, Join;
    var raws: seq<RawRecord> := q.records;
    assert raws[..|raws|] == raws && d.rows + [] == d.rows && d.rows[..|d.rows|] == d.rows;
  }

  lemma AcceptedDigest(hash: bytes -> Sha256, limit: nat, d: Durable, q: Request)
    requires Sound(hash, d) && DecideDrain(hash, limit, d, q).Accepted? && q.digest.Some?
    requires Admissible(limit, d, q)
    ensures var next := DecideDrain(hash, limit, d, q).next;
      && q.expected + |q.records| <= |next.rows|
      && q.digest.value == hash(Raws(next.rows[..q.expected + |q.records|]))
  {
    hide ResolveTail, Join, Raws;
    var next := DecideDrain(hash, limit, d, q).next;
    assert next.rows[..|next.rows|] == next.rows && d.rows[..|d.rows|] == d.rows;
    AcceptedShape(hash, limit, d, q);
    if q.expected + |q.records| <= |d.rows| {
      assert next.rows[..q.expected + |q.records|] == d.rows[..q.expected + |q.records|];
    }
  }

  /** The same drain again is accepted again and changes nothing, whatever digest it asserts. */
  lemma DrainTwice(hash: bytes -> Sha256, limit: nat, d: Durable, q: Request)
    requires Sound(hash, d) && DecideDrain(hash, limit, d, q).Accepted?
    ensures var next := DecideDrain(hash, limit, d, q).next;
      Sound(hash, next) && DecideDrain(hash, limit, next, q) == Accepted(next)
  {
    var next := DecideDrain(hash, limit, d, q).next;
    hide ResolveTail, Raws, Join, DecideDrain;
    DrainStores(hash, limit, d, q);
    AcceptedShape(hash, limit, d, q);
    if q.digest.Some? {
      AcceptedDigest(hash, limit, d, q);
    }
    ResolvesAgain(d, q.tail, ParseAll(Suffix(d, q)), next);
    ReplaySettles(hash, limit, next, q);
  }

  /** The chunk limit only bounds how much one call may carry. */
  lemma LimitOnlyBounds(hash: bytes -> Sha256, limit: nat, d: Durable, q: Request)
    requires Placed(d) && |q.records| <= limit
    ensures DecideDrain(hash, limit, d, q) == DecideDrain(hash, |q.records|, d, q)
  {
    assert Bounded(q.records, limit) <==> Bounded(q.records, |q.records|);
    hide ReplayOrAppend, AppendDrain, ReceivesLeg;
  }

  // ----- tails alone

  /** A tail without records is accepted exactly if it fits the leg and agrees with the accepted stream. */
  lemma TailDecides(hash: bytes -> Sha256, d: Durable, e: int, g: int, tail: Option<Tail>)
    requires Sound(hash, d)
    ensures var decision := DecideTail(d, e, g, tail);
      && (decision.Refused? <==>
            !(e == d.source.count && ReceivesCheckpoint(d.source, e, g) && tail.Some?
              && ValidTail(tail.value, d.source, d.source.count)))
      && (!decision.Refused? ==>
            && 0 <= tail.value.offset <= |Stream(d)|
            && (decision.Accepted? <==> Agrees(Stream(d), tail.value.offset, tail.value.data))
            && (decision.Accepted? ==>
                  && Advanced(hash, d, decision.next, Merge(Stream(d), tail.value.offset, tail.value.data), d.source.count)
                  && Grown(d, decision.next)))
  {
    hide Raws, Agrees, Merge, ResolveTail;
    assert d.rows + [] == d.rows;
    if e == d.source.count && ReceivesCheckpoint(d.source, e, g) && tail.Some? {
      SettlesTail(hash, d, [], tail, d.source.digest);
      var decision := DecideTail(d, e, g, tail);
      if decision.Accepted? {
        MergeExtends(Stream(d), tail.value.offset, tail.value.data);
      }
    }
  }
}
