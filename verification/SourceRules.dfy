/**
 * The store's rules in the source's own columns: for every source a run can reach, exactly when each operation is
 * accepted and what it leaves. The sizes are the numbers of the wire format.
 */
module SourceRules {
  import opened AudioMachine
  import opened Bytes
  import opened CaptureDrain
  import opened CaptureRecords
  import opened DrainLaws
  import opened DrainTheorems
  import opened LegRuns
  import opened SourceRuns

  /** A source as some run of calls from its creation left it. */
  ghost predicate Reached(hash: bytes -> Sha256, d: Durable) {
    exists kind, start, limit, calls :: ReachedBy(hash, kind, start, limit, calls, d)
  }

  predicate ReachedBy(hash: bytes -> Sha256, kind: SourceKind, start: int, limit: int, calls: seq<Call>, d: Durable) {
    var born := Created(hash, kind, start, limit);
    born.Some? && Sound(hash, born.value) && d == Run(hash, born.value, calls)
  }

  lemma ReachedFits(hash: bytes -> Sha256, d: Durable)
    requires Reached(hash, d)
    ensures Sound(hash, d) && LegFits(d.source)
  {
    hide Run, Sound;
    var kind, start, limit, calls :| ReachedBy(hash, kind, start, limit, calls, d);
    var born := Created(hash, kind, start, limit).value;
    assert LegFits(born.source);
    RunKeepsLeg(hash, born, calls);
  }

  // ----- the lifecycle

  /** Creation accepts exactly the ranges the wire can number, and starts with nothing. */
  lemma CreatesExactly(hash: bytes -> Sha256, kind: SourceKind, start: int, limit: int)
    ensures Created(hash, kind, start, limit).Some? <==>
      0 <= start <= limit < 0x1_0000_0000_0000_0000 && limit - start < 0x1_0000_0000
    ensures var created := Created(hash, kind, start, limit);
      created.Some? ==>
        var d := created.value;
        && d.source.kind == kind && d.source.phase == Prepared
        && d.source.start == start && d.source.limit == limit
        && d.source.prepared.None? && d.source.readBegin.None? && d.source.generation == 0
        && d.source.leg == Leg(start, 0)
        && d.source.count == 0 && d.source.digest == hash([])
        && d.rows == [] && d.tail.None? && d.conflicts == [] && d.custody.None?
        && Reached(hash, d)
  {
    if Created(hash, kind, start, limit).Some? {
      var d := Created(hash, kind, start, limit).value;
      BornSound(hash, kind, start, limit);
      assert ReachedBy(hash, kind, start, limit, [], d);
    }
  }

  /**
   * A leg is prepared exactly inside the source's range and no later than the frontier: the whole range at first, any
   * such leg after an interruption, and otherwise only the one already prepared.
   */
  lemma PreparesExactly(hash: bytes -> Sha256, d: Durable, start: int, count: int)
    requires Reached(hash, d)
    ensures var s := d.source;
      && (DecidePrepare(d, start, count).Accepted? <==>
            && count > 0
            && s.start <= start <= s.start + |d.rows|
            && start + count <= s.limit
            && (|| (s.phase == Prepared && start == s.start && start + count == s.limit)
                || (s.phase == Interrupted && s.generation < 0xFFFF_FFFF)
                || (s.phase == LegPrepared && s.leg.start == start && s.leg.count == count)))
      && (DecidePrepare(d, start, count).Accepted? ==>
            DecidePrepare(d, start, count).next ==
              if s.phase == LegPrepared then d
              else
                d.(source := s.(phase := LegPrepared, prepared := Some(Leg(start, count)), readBegin := None,
                     generation := s.generation + 1, leg := Leg(start, count))))
      && !DecidePrepare(d, start, count).Contested?
  {
    ReachedFits(hash, d);
    hide Raws;
  }

  /** READ_BEGIN is taken exactly for the current leg, once prepared, and starts the reception. */
  lemma BeginsExactly(hash: bytes -> Sha256, d: Durable, start: int, count: int)
    requires Reached(hash, d)
    ensures var s := d.source;
      && (DecideReadBegin(d, start, count).Accepted? <==>
            s.phase in {LegPrepared, Receiving} && s.leg.start == start && s.leg.count == count)
      && (DecideReadBegin(d, start, count).Accepted? ==>
            DecideReadBegin(d, start, count).next ==
              if s.phase == Receiving then d
              else d.(source := s.(phase := Receiving, readBegin := Some(Leg(start, count)))))
      && !DecideReadBegin(d, start, count).Contested?
  {
    ReachedFits(hash, d);
    hide Raws;
  }

  /** No run makes a source covered or retiring, so an interruption is always taken. */
  lemma InterruptsExactly(hash: bytes -> Sha256, d: Durable)
    requires Reached(hash, d)
    ensures DecideInterrupt(d) == Accepted(
      if d.source.phase in {Prepared, LegPrepared, Receiving} then d.(source := d.source.(phase := Interrupted)) else d)
  {
    ReachedFits(hash, d);
    hide Raws;
  }

  // ----- bytes

  /** No byte of `offered`, laid down at `offset`, is another than the one `stream` has there. */
  predicate SaysNothingElse(stream: bytes, offset: int, offered: bytes) {
    forall i :: 0 <= i < |offered| && 0 <= offset + i < |stream| ==> stream[offset + i] == offered[i]
  }

  lemma SayingIsAgreeing(stream: bytes, offset: nat, offered: bytes)
    ensures Agrees(stream, offset, offered) <==> offset <= |stream| && SaysNothingElse(stream, offset, offered)
  {}

  /** A partial record of the current leg that begins record `complete`. */
  predicate BeginsRecord(tail: Tail, s: Source, frontier: int) {
    && tail.generation == s.generation
    && s.leg.start <= s.start + tail.complete < s.leg.start + s.leg.count
    && tail.complete <= frontier
    && tail.offset == 444 * tail.complete
    && 1 <= |tail.data| <= 443
    && tail.received == 444 * tail.complete + |tail.data|
  }

  lemma BeginsIsValid(tail: Tail, s: Source, frontier: nat)
    requires s.start <= s.leg.start
    ensures BeginsRecord(tail, s, frontier) <==> ValidTail(tail, s, frontier)
  {}

  /** Where accepted bytes lie: records are a big-endian timestamp and 440 bytes of payload, then the partial record. */
  lemma StreamAt(d: Durable, i: nat, j: nat)
    requires i < |d.rows| && j < 444
    ensures |Stream(d)| == 444 * |d.rows| + (if d.tail.Some? then |d.tail.value.data| else 0)
    ensures d.tail.Some? ==> Stream(d)[444 * |d.rows|..] == d.tail.value.data
    ensures 444 * i + j < |Stream(d)|
    ensures Stream(d)[444 * i + j] as nat ==
      if j < 4 then d.rows[i].timestamp / Pow256(3 - j) % 256 else d.rows[i].payload[j - 4] as nat
  {
    RawsAt(d.rows, i);
    assert Stream(d)[444 * i + j] == d.rows[i].RawBytes()[j];
    if j < 4 {
      BigEndianAt(d.rows[i].timestamp, 4, j);
    }
  }

  // ----- tails and drains

  /** The source takes data for this leg generation. */
  predicate Receives(s: Source, generation: int) {
    s.phase == Receiving && generation == s.generation
  }

  /** Where a partial record alone is looked at: at the frontier, with a place left in the leg, in the right form. */
  predicate TailWelcome(d: Durable, expected: int, generation: int, tail: Option<Tail>) {
    && Receives(d.source, generation)
    && expected == |d.rows|
    && d.source.leg.start <= d.source.start + expected < d.source.leg.start + d.source.leg.count
    && tail.Some?
    && BeginsRecord(tail.value, d.source, expected)
  }

  /** The bytes `offered` at `offset` extend the accepted ones, or are all accepted already. */
  function Extended(stream: bytes, offset: int, offered: bytes): (extended: bytes)
    requires 0 <= offset <= |stream|
    ensures |extended| == if offset + |offered| <= |stream| then |stream| else offset + |offered|
  {
    if offset + |offered| <= |stream| then stream else stream[..offset] + offered
  }

  /**
   * A partial record alone is accepted exactly at the frontier of a receiving source, for the current generation and
   * inside the leg, if it has the right form and says nothing else than the accepted bytes. Then the longer of the two
   * is held, and nothing else moves. One that says something else, and no other, is a conflict.
   */
  lemma TailsExactly(hash: bytes -> Sha256, d: Durable, expected: int, generation: int, tail: Option<Tail>)
    requires Reached(hash, d)
    ensures Placed(d)
    ensures var decision := DecideTail(d, expected, generation, tail);
      && (decision.Accepted? <==>
            && TailWelcome(d, expected, generation, tail)
            && SaysNothingElse(Stream(d), tail.value.offset, tail.value.data))
      && (decision.Contested? <==>
            && TailWelcome(d, expected, generation, tail)
            && !SaysNothingElse(Stream(d), tail.value.offset, tail.value.data))
      && (decision.Accepted? ==>
            && 0 <= tail.value.offset <= |Stream(d)|
            && decision.next == d.(tail := if tail.value.offset + |tail.value.data| <= |Stream(d)| then d.tail else tail)
            && Stream(decision.next) == Extended(Stream(d), tail.value.offset, tail.value.data))
      && (decision.Contested? ==>
            && decision.offset == tail.value.offset
            && decision.reason == TailMismatch
            && decision.rejected == (if tail.value.complete < |d.rows| then d.rows[tail.value.complete].RawBytes()
                                     else tail.value.data))
  {
    ReachedFits(hash, d);
    TailDecides(hash, d, expected, generation, tail);
    assert d.rows + [] == d.rows;
    hide Raws, Stream, SaysNothingElse, Agrees, ResolveTail;
    if tail.Some? {
      BeginsIsValid(tail.value, d.source, d.source.count);
    }
    if TailWelcome(d, expected, generation, tail) {
      SayingIsAgreeing(Stream(d), tail.value.offset, tail.value.data);
    }
  }

  /** The records of a request, offered where they may be, to a source that takes them. */
  predicate DrainWelcome(limit: nat, d: Durable, q: Request) {
    && Receives(d.source, q.generation)
    && 0 < |q.records| <= limit
    && (forall i :: 0 <= i < |q.records| ==> |q.records[i]| == 444)
    && 0 <= q.expected <= |d.rows|
    && d.source.leg.start <= d.source.start + q.expected
    && d.source.start + q.expected + |q.records| <= d.source.leg.start + d.source.leg.count
  }

  /** The accepted bytes with the offered records. */
  function Longer(d: Durable, q: Request): (longer: bytes)
    requires 0 <= q.expected <= |d.rows|
  {
    StreamReaches(d);
    Extended(Stream(d), 444 * q.expected, Join(q.records))
  }

  function Reach(d: Durable, q: Request): int {
    if q.expected + |q.records| <= |d.rows| then |d.rows| else q.expected + |q.records|
  }

  /** The asserted digest and the partial record of a request whose records are welcome. */
  predicate CheckpointFits(hash: bytes -> Sha256, d: Durable, q: Request)
    requires 0 <= q.expected <= |d.rows|
  {
    && (q.tail.Some? ==> BeginsRecord(q.tail.value, d.source, Reach(d, q)))
    && (q.digest.Some? ==>
          && 444 * (q.expected + |q.records|) <= |Longer(d, q)|
          && q.digest.value == hash(Longer(d, q)[..444 * (q.expected + |q.records|)]))
  }

  /** No byte of a request is another than an accepted byte, or than a byte of its own records. */
  predicate SpeaksTrue(d: Durable, q: Request)
    requires 0 <= q.expected <= |d.rows|
  {
    && SaysNothingElse(Stream(d), 444 * q.expected, Join(q.records))
    && (q.tail.Some? ==> SaysNothingElse(Longer(d, q), q.tail.value.offset, q.tail.value.data))
  }

  lemma JoinAt(records: seq<bytes>, i: nat)
    requires forall k :: 0 <= k < |records| ==> |records[k]| == 444
    requires i < |records|
    ensures |Join(records)| == 444 * |records|
    ensures Join(records)[444 * i..444 * (i + 1)] == records[i]
  {
    var raws: seq<RawRecord> := records;
    RawsParsed(raws);
    RawsAt(ParseAll(raws), i);
  }

  lemma WelcomeIsAdmissible(hash: bytes -> Sha256, limit: nat, d: Durable, q: Request)
    requires Reached(hash, d)
    ensures Placed(d)
    ensures Admissible(limit, d, q) <==> DrainWelcome(limit, d, q) && (q.digest.Some? ==> IsSha256(q.digest.value))
    ensures DrainWelcome(limit, d, q) ==>
      (TailFits(d, q) <==> q.tail.Some? ==> BeginsRecord(q.tail.value, d.source, Reach(d, q)))
  {
    ReachedFits(hash, d);
    hide Raws;
  }

  predicate IsHexDigest(digest: string) {
    |digest| == 64 && forall i :: 0 <= i < |digest| ==> '0' <= digest[i] <= '9' || 'a' <= digest[i] <= 'f'
  }

  lemma HexIsSha256(digest: string)
    ensures IsHexDigest(digest) <==> IsSha256(digest)
  {
    if IsSha256(digest) {
      forall i | 0 <= i < |digest|
        ensures '0' <= digest[i] <= '9' || 'a' <= digest[i] <= 'f'
      {
        assert digest[i] in digest;
      }
    }
  }

  lemma LongerIsLaid(d: Durable, q: Request)
    requires Placed(d) && 0 <= q.expected <= |d.rows|
    ensures Longer(d, q) == WithRecords(d, q)
    ensures RecordsAgree(Stream(d), q) <==> SaysNothingElse(Stream(d), 444 * q.expected, Join(q.records))
    ensures q.tail.Some? && 0 <= q.tail.value.offset <= |Longer(d, q)| ==>
      && (SaysTheSame(d, q) <==> SpeaksTrue(d, q))
      && Laid(d, q) == Extended(Longer(d, q), q.tail.value.offset, q.tail.value.data)
  {
    StreamReaches(d);
    hide Raws, Join, Stream, Agrees, SaysNothingElse;
    SayingIsAgreeing(Stream(d), 444 * q.expected, Join(q.records));
    if q.tail.Some? && 0 <= q.tail.value.offset {
      SayingIsAgreeing(Longer(d, q), q.tail.value.offset, q.tail.value.data);
    }
  }

  /** Where the offered records agree with the stored ones, the bytes up to the last of them are the same either way. */
  lemma PrefixOfLonger(d: Durable, q: Request)
    requires Placed(d) && 0 <= q.expected <= |d.rows| && Bounded(q.records, |q.records|)
    ensures var size := 444 * (q.expected + |q.records|);
      var laid := Merge(Raws(d.rows), 444 * q.expected, Join(q.records));
      size <= |laid| && size <= |Longer(d, q)| && laid[..size] == Longer(d, q)[..size]
  {
    RawsParsed(q.records);
    StreamReaches(d);
    var from, size := 444 * q.expected, 444 * (q.expected + |q.records|);
    var rows, offered := Raws(d.rows), Join(q.records);
    assert Stream(d)[..|rows|] == rows;
    hide Raws, Join, Stream;
    if q.expected + |q.records| > |d.rows| {
      assert Longer(d, q)[..size] == Stream(d)[..from] + offered == rows[..from] + offered;
    }
  }

  lemma CheckpointIsChecked(hash: bytes -> Sha256, d: Durable, q: Request)
    requires Placed(d) && 0 <= q.expected <= |d.rows| && Bounded(q.records, |q.records|)
    ensures CheckpointFits(hash, d, q) <==>
      DigestHolds(hash, d, q) && (q.tail.Some? ==> BeginsRecord(q.tail.value, d.source, Reach(d, q)))
    ensures CheckpointFits(hash, d, q) ==> q.digest.Some? ==> IsSha256(q.digest.value)
  {
    PrefixOfLonger(d, q);
    hide Raws, Join, Merge, Longer, BeginsRecord;
  }

  /**
   * A drain is accepted exactly if its records are welcome, its partial record has the right form, its digest is that
   * of the accepted bytes up to its last record, and it says nothing else than the accepted bytes. Then its bytes are
   * accepted too, and nothing but rows, count, digest and partial record moves.
   */
  lemma DrainsExactly(hash: bytes -> Sha256, limit: nat, d: Durable, q: Request)
    requires Reached(hash, d)
    ensures Placed(d)
    ensures var decision := DecideDrain(hash, limit, d, q);
      && (decision.Accepted? <==> DrainWelcome(limit, d, q) && CheckpointFits(hash, d, q) && SpeaksTrue(d, q))
      && (decision.Accepted? ==>
            && (q.tail.Some? ==> 0 <= q.tail.value.offset <= |Longer(d, q)|)
            && decision.next.source == d.source.(count := Reach(d, q), digest := decision.next.source.digest)
            && decision.next == d.(source := decision.next.source, rows := decision.next.rows, tail := decision.next.tail)
            && Stream(decision.next) ==
               (if q.tail.Some? then Extended(Longer(d, q), q.tail.value.offset, q.tail.value.data) else Longer(d, q))
            && |decision.next.rows| == Reach(d, q)
            && decision.next.source.digest == hash(Stream(decision.next)[..444 * Reach(d, q)]))
      && (decision.Refused? <==>
            || !DrainWelcome(limit, d, q)
            || (q.digest.Some? && !IsHexDigest(q.digest.value))
            || (!CheckpointFits(hash, d, q) && SaysNothingElse(Raws(d.rows), 444 * q.expected, Join(q.records))))
      && (decision.Contested? && !SaysNothingElse(Raws(d.rows), 444 * q.expected, Join(q.records)) ==>
            decision == Contested(444 * q.expected, Join(q.records), ReplayMismatch))
  {
    ReachedFits(hash, d);
    WelcomeIsAdmissible(hash, limit, d, q);
    DrainDecides(hash, limit, d, q);
    hide Raws, Join, Stream, DecideDrain, Longer, CheckpointFits, SpeaksTrue, DigestHolds, TailFits, Reached, SaysTheSame,
      SaysNothingElse, IsHexDigest, IsSha256;
    if q.digest.Some? {
      HexIsSha256(q.digest.value);
    }
    if DrainWelcome(limit, d, q) {
      SayingIsAgreeing(Raws(d.rows), 444 * q.expected, Join(q.records));
      CheckpointIsChecked(hash, d, q);
      LongerIsLaid(d, q);
    }
  }
}
