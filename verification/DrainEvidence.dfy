/** What a conflict keeps as evidence. */
module DrainEvidence {
  import AudioMachine
  import opened Bytes
  import opened CaptureDrain
  import opened CaptureRecords
  import opened DrainLaws
  import opened DrainMerge
  import opened DrainTheorems

  /** Somewhere the evidence has another byte than the accepted stream. */
  predicate Contradicts(stream: bytes, offset: int, rejected: bytes) {
    exists i :: 0 <= i < |rejected| && 0 <= offset + i < |stream| && stream[offset + i] != rejected[i]
  }

  lemma ContradictsIsDisagrees(stream: bytes, offset: nat, rejected: bytes)
    requires offset <= |stream|
    ensures Contradicts(stream, offset, rejected) <==> !Agrees(stream, offset, rejected)
  {}

  lemma ContestedShape(hash: bytes -> Sha256, limit: nat, d: Durable, q: Request)
    requires Sound(hash, d) && DecideDrain(hash, limit, d, q).Contested?
    ensures Admissible(limit, d, q)
    ensures RowsAgree(d, q) ==>
      var decision := DecideDrain(hash, limit, d, q);
      decision.reason == TailMismatch &&
      ResolveTail(d, q.tail, ParseAll(Suffix(d, q))) == Clash(decision.offset, decision.rejected)
  {
    hide ResolveTail, Raws, Join, Agrees, ReplayOrAppend, AppendDrain;
    assert Admissible(limit, d, q);
    if RowsAgree(d, q) {
      if q.expected < d.source.count {
        MismatchIsRows(hash, d, q);
      }
      if q.expected + |q.records| <= d.source.count {
        InsideShape(hash, d, q);
      } else {
        BeyondAppends(hash, d, q);
        BeyondShape(hash, d, q);
      }
    }
  }

  lemma InsideShape(hash: bytes -> Sha256, d: Durable, q: Request)
    requires Placeable(d, q) && q.expected + |q.records| <= d.source.count
    requires var raws: seq<RawRecord> := q.records; SameBytes(d.rows[q.expected..q.expected + |raws|], raws[..|raws|])
    requires ReplayOrAppend(hash, d, q.expected, q.records, q.digest, q.tail).Contested?
    ensures var decision := ReplayOrAppend(hash, d, q.expected, q.records, q.digest, q.tail);
      decision.reason == TailMismatch &&
      ResolveTail(d, q.tail, ParseAll(Suffix(d, q))) == Clash(decision.offset, decision.rejected)
  {
    hide ResolveTail, Raws, Join, SameBytes;
    assert ParseAll([]) == [];
  }

  lemma NothingSame()
    ensures SameBytes([], [])
  {}

  lemma BeyondShape(hash: bytes -> Sha256, d: Durable, q: Request)
    requires Placeable(d, q) && q.expected + |q.records| > d.source.count
    requires q.expected < d.source.count ==>
      var raws: seq<RawRecord> := q.records;
      SameBytes(d.rows[q.expected..d.source.count], raws[..d.source.count - q.expected])
    requires AppendOrContest(hash, d, q).Contested?
    ensures var decision := AppendOrContest(hash, d, q);
      decision.reason == TailMismatch &&
      ResolveTail(d, q.tail, ParseAll(Suffix(d, q))) == Clash(decision.offset, decision.rejected)
  {
    hide ResolveTail, Raws, Join, SameBytes;
    var raws: seq<RawRecord> := q.records;
    NothingSame();
    assert d.rows[q.expected..d.source.count] == d.rows[q.expected..];
    assert q.expected == d.source.count ==> d.rows[q.expected..] == [] && raws[..0] == [];
  }

  lemma MismatchIsRows(hash: bytes -> Sha256, d: Durable, q: Request)
    requires Sound(hash, d) && Placeable(d, q) && q.expected < d.source.count && RowsAgree(d, q)
    ensures var raws: seq<RawRecord> := q.records;
      var overlap := Min(|raws|, d.source.count - q.expected);
      SameBytes(d.rows[q.expected..q.expected + overlap], raws[..overlap])
  {
    hide Raws, Join, Agrees, Merge, SameBytes;
    var raws: seq<RawRecord> := q.records;
    StreamReaches(d);
    if q.expected + |raws| <= d.source.count {
      OverlapAgrees(d.(tail := None), q.expected, raws);
      assert raws[..|raws|] == raws;
    } else {
      RecordsLaid(d, q.expected, raws);
      assert d.rows[q.expected..] == d.rows[q.expected..d.source.count];
    }
  }

  lemma RecordsAgreeIsPrevious(hash: bytes -> Sha256, d: Durable, q: Request)
    requires Sound(hash, d) && Placeable(d, q) && RowsAgree(d, q)
    ensures RecordsAgree(Stream(d), q) <==> PreviousAgrees(d, ParseAll(Suffix(d, q)))
  {
    hide Raws, Join, Agrees, Merge, SameBytes;
    var raws: seq<RawRecord> := q.records;
    if q.expected + |raws| <= d.source.count {
      InsideRows(d, q.expected, raws);
    } else {
      RecordsLaid(d, q.expected, raws);
      OverhangStream(d, q, raws, Suffix(d, q));
      AppendAgrees(d, Suffix(d, q));
    }
  }

  lemma StaleEvidence(d: Durable, i: nat)
    requires i < |d.rows|
    ensures !Contradicts(Stream(d), AUDIO_RECORD_SIZE * i, d.rows[i].RawBytes())
  {
    hide Raws, Agrees;
    RawsAt(d.rows, i);
    ParseRaw(d.rows[i]);
    StreamReaches(d);
    AgreesWithin(Raws(d.rows), TailBytes(d.tail), AUDIO_RECORD_SIZE * i, d.rows[i].RawBytes());
    ContradictsIsDisagrees(Stream(d), AUDIO_RECORD_SIZE * i, d.rows[i].RawBytes());
  }

  lemma FrontierEvidence(d: Durable, rejected: bytes)
    ensures var shared := Min(|TailBytes(d.tail)|, |rejected|);
      Contradicts(Stream(d), AUDIO_RECORD_SIZE * |d.rows|, rejected) <==>
        TailBytes(d.tail)[..shared] != rejected[..shared]
  {
    hide Agrees;
    AgreesAtEnd(Raws(d.rows), TailBytes(d.tail), rejected);
    ContradictsIsDisagrees(Stream(d), AUDIO_RECORD_SIZE * |d.rows|, rejected);
  }

  /** A tail behind the frontier that is reached, after records that agree. */
  predicate IsBehind(d: Durable, incoming: Option<Tail>, appended: seq<Record>) {
    PreviousAgrees(d, appended) && incoming.Some? && incoming.value.complete < d.source.count + |appended|
  }

  /** What clashes with it, and with anything else. */
  lemma ClashShape(d: Durable, incoming: Option<Tail>, appended: seq<Record>)
    requires Placed(d) && ResolveTail(d, incoming, appended).Clash?
    ensures var clash := ResolveTail(d, incoming, appended);
      if IsBehind(d, incoming, appended) then
        && 0 <= incoming.value.complete
        && clash == Clash(AUDIO_RECORD_SIZE * incoming.value.complete, RowAt(d, appended, incoming.value.complete))
      else
        var shared := Min(|TailBytes(d.tail)|, |clash.rejected|);
        clash.offset == AUDIO_RECORD_SIZE * |d.rows| && TailBytes(d.tail)[..shared] != clash.rejected[..shared]
  {
    if appended != [] {
      ParseRaw(appended[0]);
    }
  }

  /** Past the record under way nothing is accepted that could be contradicted. */
  lemma BeyondEvidence(d: Durable, complete: nat, rejected: bytes)
    requires Placed(d) && complete > |d.rows|
    ensures !Contradicts(Stream(d), AUDIO_RECORD_SIZE * complete, rejected)
  {
    hide Raws;
    assert |Stream(d)| < AUDIO_RECORD_SIZE * (|d.rows| + 1);
  }

  /** The evidence a tail leaves. */
  lemma ClashContradicts(d: Durable, incoming: Option<Tail>, appended: seq<Record>)
    requires Placed(d) && ResolveTail(d, incoming, appended).Clash?
    ensures var clash := ResolveTail(d, incoming, appended);
      Contradicts(Stream(d), clash.offset, clash.rejected) <==>
        !(PreviousAgrees(d, appended) && incoming.Some? && incoming.value.complete < d.source.count + |appended|)
  {
    var clash := ResolveTail(d, incoming, appended);
    ClashShape(d, incoming, appended);
    hide Raws, ResolveTail, Contradicts, Stream;
    if IsBehind(d, incoming, appended) {
      var complete := incoming.value.complete;
      if complete < |d.rows| {
        StaleEvidence(d, complete);
      } else if complete == |d.rows| {
        FrontierEvidence(d, clash.rejected);
        ParseRaw(appended[0]);
      } else {
        BeyondEvidence(d, complete, clash.rejected);
      }
    } else {
      FrontierEvidence(d, clash.rejected);
    }
  }

  /**
   * The evidence of a conflict contradicts the accepted bytes, unless the drain's records agree with them and its
   * tail lies behind the frontier: then the whole record the tail had to begin is kept in place of the tail, whether
   * that record was accepted before or is offered now.
   */
  lemma EvidenceContradicts(hash: bytes -> Sha256, limit: nat, d: Durable, q: Request)
    requires Sound(hash, d) && DecideDrain(hash, limit, d, q).Contested?
    ensures var decision := DecideDrain(hash, limit, d, q);
      && Admissible(limit, d, q)
      && (Contradicts(Stream(d), decision.offset, decision.rejected) <==>
            !(RecordsAgree(Stream(d), q) && q.tail.Some? && q.tail.value.complete < Frontier(d, q)))
  {
    hide Raws, Join, Agrees, ResolveTail, DecideDrain, Contradicts, Merge;
    ContestedShape(hash, limit, d, q);
    if RowsAgree(d, q) {
      RecordsAgreeIsPrevious(hash, d, q);
      ClashContradicts(d, q.tail, ParseAll(Suffix(d, q)));
    } else {
      RowsContradict(hash, limit, d, q);
    }
  }

  lemma RowsContradict(hash: bytes -> Sha256, limit: nat, d: Durable, q: Request)
    requires Sound(hash, d) && Admissible(limit, d, q) && !RowsAgree(d, q)
    ensures !RecordsAgree(Stream(d), q)
    ensures var decision := DecideDrain(hash, limit, d, q);
      decision.Contested? && Contradicts(Stream(d), decision.offset, decision.rejected)
  {
    hide Raws, Join, DecideDrain;
    DrainDecides(hash, limit, d, q);
    StreamReaches(d);
    var offset, offered := AUDIO_RECORD_SIZE * q.expected, Join(q.records);
    assert forall i :: 0 <= i < |Raws(d.rows)| ==> Stream(d)[i] == Raws(d.rows)[i];
    ContradictsIsDisagrees(Stream(d), offset, offered);
  }

  /** A drain whose records agree, with a tail behind the frontier that has another byte than the stream there. */
  predicate TailBehindDisagrees(hash: bytes -> Sha256, limit: nat, d: Durable, q: Request)
    requires Placed(d)
  {
    && Admissible(limit, d, q)
    && DigestHolds(hash, d, q)
    && TailFits(d, q)
    && RecordsAgree(Stream(d), q)
    && q.tail.Some?
    && q.tail.value.complete < Frontier(d, q)
    && !Agrees(WithRecords(d, q), q.tail.value.offset, q.tail.value.data)
  }

  /** Evidence that contradicts nothing is kept exactly for these drains. */
  lemma EvidenceMissesExactly(hash: bytes -> Sha256, limit: nat, d: Durable, q: Request)
    requires Sound(hash, d)
    ensures var decision := DecideDrain(hash, limit, d, q);
      TailBehindDisagrees(hash, limit, d, q) <==>
        decision.Contested? && !Contradicts(Stream(d), decision.offset, decision.rejected)
  {
    hide Raws, Join, Agrees, ResolveTail, DecideDrain, Contradicts, Merge, DigestHolds, TailFits, Advanced;
    var decision := DecideDrain(hash, limit, d, q);
    DrainDecides(hash, limit, d, q);
    if decision.Contested? {
      EvidenceContradicts(hash, limit, d, q);
    }
    if Admissible(limit, d, q) && !RowsAgree(d, q) {
      RowsContradict(hash, limit, d, q);
    }
  }

  /** What is kept then. */
  lemma MissedEvidence(hash: bytes -> Sha256, limit: nat, d: Durable, q: Request)
    requires Sound(hash, d) && TailBehindDisagrees(hash, limit, d, q)
    ensures var tail := q.tail.value;
      DecideDrain(hash, limit, d, q) == Contested(tail.offset, RowAt(d, ParseAll(Suffix(d, q)), tail.complete), TailMismatch)
  {
    hide Raws, Join, Agrees, DecideDrain, Contradicts, Merge, DigestHolds, Advanced;
    EvidenceMissesExactly(hash, limit, d, q);
    ContestedShape(hash, limit, d, q);
    assert RowsAgree(d, q) by {
      if !RowsAgree(d, q) {
        RowsContradict(hash, limit, d, q);
      }
    }
    RecordsAgreeIsPrevious(hash, d, q);
  }

  /** Such a drain: the one record again, with a tail inside it that has another first byte. */
  lemma EvidenceMisses(hash: bytes -> Sha256, record: Record, byte: byte)
    requires byte != record.RawBytes()[0]
    ensures
      var leg := Leg(0, 2);
      var source := Source(Attempt, AudioMachine.Receiving, 0, 2, Some(leg), Some(leg), 1, leg, 1, hash(Raws([record])));
      var d := Durable(source, [record], None, [], None);
      var q := Request(0, [record.RawBytes()], 1, Some(Tail(1, 0, 1, 0, [byte])), None);
      && Sound(hash, d)
      && DecideDrain(hash, 1, d, q) == Contested(0, record.RawBytes(), TailMismatch)
      && !Contradicts(Stream(d), 0, record.RawBytes())
  {
    var leg := Leg(0, 2);
    var source := Source(Attempt, AudioMachine.Receiving, 0, 2, Some(leg), Some(leg), 1, leg, 1, hash(Raws([record])));
    var d := Durable(source, [record], None, [], None);
    ParseRaw(record);
    StaleEvidence(d, 0);
  }
}
