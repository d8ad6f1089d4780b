/** What a capture source durably is, and what each store operation makes of it. */
module CaptureDrain {
  import opened Bytes
  import opened AudioMachine
  import opened CaptureRecords

  const SHA256_HEX_LENGTH: nat := 64

  predicate IsSha256(digest: string) {
    && |digest| == SHA256_HEX_LENGTH
    && forall c <- digest :: '0' <= c <= '9' || 'a' <= c <= 'f'
  }

  type Sha256 = digest: string | IsSha256(digest) witness seq(SHA256_HEX_LENGTH, _ => '0')

  datatype Leg = Leg(start: nat, count: nat)

  datatype SourceKind = Attempt | Draft | Quarantine

  datatype Source = Source(
    kind: SourceKind, phase: Phase, start: nat, limit: nat, prepared: Option<Leg>, readBegin: Option<Leg>,
    generation: nat, leg: Leg, count: nat, digest: Sha256)
  {
    function LegFloor(): int { leg.start - start }
  }

  datatype Tail = Tail(generation: int, complete: int, received: int, offset: int, data: bytes)

  datatype Reason = ReplayMismatch | TailMismatch | SourceAuthenticationMismatch

  datatype Conflict = Conflict(ordinal: nat, generation: nat, offset: int, reason: Reason, rejected: bytes)

  datatype Disposition = Unclassified | Unprocessable

  /** Why a blocked source is held, and until when if nothing in it can be published. */
  datatype Custody = Custody(blockReason: Reason, disposition: Disposition, retention: Option<int>)

  datatype Durable = Durable(
    source: Source, rows: seq<Record>, tail: Option<Tail>, conflicts: seq<Conflict>, custody: Option<Custody>)

  function TailBytes(tail: Option<Tail>): bytes {
    if tail.Some? then tail.value.data else []
  }

  /** Everything the source has durably accepted: its records, then its partial record. */
  function Stream(d: Durable): bytes {
    Raws(d.rows) + TailBytes(d.tail)
  }

  // ----- what every reachable source satisfies

  predicate TailPlaced(tail: Tail, count: nat) {
    && tail.complete == count
    && tail.offset == AUDIO_RECORD_SIZE * count
    && 1 <= |tail.data| <= TAIL_MAX_BYTES
    && tail.received == tail.offset + |tail.data|
  }

  predicate Placed(d: Durable) {
    var s := d.source;
    && s.count == |d.rows|
    && s.start + s.count <= s.limit <= UINT64_MAX
    && s.limit - s.start <= UINT32_MAX
    && s.start <= s.leg.start <= s.start + s.count
    && s.leg.start + s.leg.count <= s.limit
    && (d.tail.Some? ==> TailPlaced(d.tail.value, s.count) && s.start + s.count < s.limit)
    && (s.phase == Blocked <==> |d.conflicts| == 1)
    && (s.phase != Blocked <==> d.conflicts == [])
    && (s.phase == Blocked <==> d.custody.Some?)
    && (s.phase == SealedWaiting ==> s.start + s.count == s.limit)
  }

  predicate Sound(hash: bytes -> Sha256, d: Durable) {
    Placed(d) && d.source.digest == hash(Raws(d.rows))
  }

  // ----- decisions

  /** What an operation makes of the durable state it read. */
  datatype Decision =
    | Refused
    | Contested(offset: int, rejected: bytes, reason: Reason)
    | Accepted(next: Durable)

  datatype Request = Request(
    expected: int, records: seq<bytes>, generation: int, tail: Option<Tail>, digest: Option<string>)

  /** `_validate_receiving_leg`. */
  predicate ReceivesLeg(s: Source, expected: int, count: nat, generation: int) {
    && generation == s.generation
    && AcceptsData(s.phase)
    && s.prepared == Some(s.leg)
    && s.readBegin == Some(s.leg)
    && s.leg.count > 0
    && count > 0
    && s.leg.start <= s.start + expected
    && s.start + expected + count <= s.leg.start + s.leg.count
  }

  /** `_validate_receiving_checkpoint`. */
  predicate ReceivesCheckpoint(s: Source, expected: int, generation: int) {
    && generation == s.generation
    && AcceptsData(s.phase)
    && s.prepared == Some(s.leg)
    && s.readBegin == Some(s.leg)
    && s.LegFloor() <= expected <= Min(s.count, s.LegFloor() + s.leg.count - 1)
  }

  function Min(a: int, b: int): int { if a <= b then a else b }

  function Max(a: int, b: int): int { if a >= b then a else b }

  /** `_validate_tail`. */
  predicate ValidTail(tail: Tail, s: Source, newCount: nat) {
    && tail.generation == s.generation
    && s.LegFloor() <= tail.complete <= newCount
    && 0 <= tail.received <= (s.LegFloor() + s.leg.count) * AUDIO_RECORD_SIZE
    && tail.offset == tail.complete * AUDIO_RECORD_SIZE
    && 1 <= |tail.data| <= TAIL_MAX_BYTES
    && tail.received == tail.offset + |tail.data|
  }

  datatype Resolution =
    | Invalid
    | Clash(offset: int, rejected: bytes)
    | Resolved(tail: Option<Tail>)

  /** `_resolve_tail` with `_check_previous_tail` and `_assert_tail_prefix`. */
  function ResolveTail(d: Durable, incoming: Option<Tail>, appended: seq<Record>): Resolution
    requires Placed(d)
  {
    var newCount := d.source.count + |appended|;
    if incoming.Some? && !ValidTail(incoming.value, d.source, newCount) then Invalid
    else if d.tail.Some? && d.tail.value.offset != d.source.count * AUDIO_RECORD_SIZE then Invalid
    else if d.tail.Some? && appended != [] && !(d.tail.value.data <= appended[0].RawBytes())
    then Clash(d.tail.value.offset, appended[0].RawBytes())
    else if incoming.Some? && incoming.value.complete < newCount
      && !(incoming.value.data <= RowAt(d, appended, incoming.value.complete))
    then Clash(incoming.value.offset, RowAt(d, appended, incoming.value.complete))
    else if incoming.None? || incoming.value.complete < newCount
    then Resolved(if appended == [] then d.tail else None)
    else if d.tail.None? || incoming.value.offset > d.tail.value.offset then Resolved(incoming)
    else if incoming.value.offset < d.tail.value.offset then Resolved(d.tail)
    else
      var shared := Min(|incoming.value.data|, |d.tail.value.data|);
      if d.tail.value.data[..shared] != incoming.value.data[..shared]
      then Clash(incoming.value.offset, incoming.value.data)
      else Resolved(if |incoming.value.data| > |d.tail.value.data| then incoming else d.tail)
  }

  /** The record a tail that lies behind the new frontier has to begin. */
  function RowAt(d: Durable, appended: seq<Record>, ordinal: int): bytes
    requires d.source.count == |d.rows| && 0 <= ordinal < d.source.count + |appended|
  {
    if ordinal < d.source.count then d.rows[ordinal].RawBytes()
    else appended[ordinal - d.source.count].RawBytes()
  }

  function Settle(resolution: Resolution, d: Durable, appended: seq<Record>, digest: Sha256): Decision
    requires d.source.count == |d.rows|
  {
    match resolution
    case Invalid => Refused
    case Clash(offset, rejected) => Contested(offset, rejected, TailMismatch)
    case Resolved(tail) =>
      Accepted(d.(source := d.source.(count := |d.rows| + |appended|, digest := digest), rows := d.rows + appended,
               tail := tail))
  }

  /** `_append_drain`, up to its transaction. */
  function AppendDrain(hash: bytes -> Sha256, d: Durable, raws: seq<RawRecord>, digest: Option<string>,
                       tail: Option<Tail>): Decision
    requires Placed(d)
  {
    var newCount := d.source.count + |raws|;
    var parsed := ParseAll(raws);
    var proposed := hash(Raws(d.rows + parsed));
    if newCount > UINT32_MAX || d.source.start + newCount > d.source.limit then Refused
    else if digest.Some? && proposed != digest.value then Refused
    else Settle(ResolveTail(d, tail, parsed), d, parsed, proposed)
  }

  predicate SameBytes(rows: seq<Record>, raws: seq<RawRecord>) {
    |rows| == |raws| && forall i :: 0 <= i < |rows| ==> rows[i].RawBytes() == raws[i]
  }

  /** `_replay_or_append`. */
  function ReplayOrAppend(hash: bytes -> Sha256, d: Durable, expected: nat, raws: seq<RawRecord>,
                          digest: Option<string>, tail: Option<Tail>): Decision
    requires Placed(d) && expected < d.source.count
  {
    var overlap := Min(|raws|, d.source.count - expected);
    if !SameBytes(d.rows[expected..expected + overlap], raws[..overlap])
    then Contested(expected * AUDIO_RECORD_SIZE, Join(raws), ReplayMismatch)
    else if overlap == |raws| then
      var checkpoint := if expected + |raws| == d.source.count then d.source.digest
                        else hash(Raws(d.rows[..expected + |raws|]));
      if digest.Some? && digest.value != checkpoint then Refused
      else Settle(ResolveTail(d, tail, []), d, [], d.source.digest)
    else AppendDrain(hash, d, raws[overlap..], digest, tail)
  }

  predicate Bounded(records: seq<bytes>, limit: nat) {
    0 < |records| <= limit && forall i :: 0 <= i < |records| ==> |records[i]| == AUDIO_RECORD_SIZE
  }

  /** `commit_drain`. */
  function DecideDrain(hash: bytes -> Sha256, limit: nat, d: Durable, q: Request): Decision
    requires Placed(d)
  {
    if !(0 <= q.expected <= UINT32_MAX) || !Bounded(q.records, limit) then Refused
    else if q.digest.Some? && !IsSha256(q.digest.value) then Refused
    else if !ReceivesLeg(d.source, q.expected, |q.records|, q.generation) then Refused
    else
      var raws: seq<RawRecord> := q.records;
      if q.expected < d.source.count then ReplayOrAppend(hash, d, q.expected, raws, q.digest, q.tail)
      else if q.expected != d.source.count then Refused
      else AppendDrain(hash, d, raws, q.digest, q.tail)
  }

  /** `commit_tail`. */
  function DecideTail(d: Durable, expected: int, generation: int, tail: Option<Tail>): Decision
    requires Placed(d)
  {
    if expected != d.source.count || !ReceivesCheckpoint(d.source, expected, generation) || tail.None? then Refused
    else Settle(ResolveTail(d, tail, []), d, [], d.source.digest)
  }

  /** `create_source`. */
  function Created(hash: bytes -> Sha256, kind: SourceKind, start: int, limit: int): Option<Durable> {
    var phase := PhaseAfter(None, Create, Some(Persist));
    if phase.Some? && 0 <= start <= limit <= UINT64_MAX && limit - start <= UINT32_MAX
    then Some(Durable(Source(kind, phase.value, start, limit, None, None, 0, Leg(start, 0), 0, hash([])), [], None, [], None))
    else None
  }

  /** `prepare_leg`. */
  function DecidePrepare(d: Durable, start: int, count: int): Decision {
    var s := d.source;
    if !(0 <= start <= UINT64_MAX) || !(0 < count <= UINT32_MAX) then Refused
    else if start < s.start || start + count > s.limit || start > s.start + s.count then Refused
    else if s.phase == Prepared && (start != s.start || start + count != s.limit) then Refused
    else
      var exact := s.prepared == Some(Leg(start, count));
      var same := s.phase == LegPrepared && exact;
      var next := PhaseAfter(Some(s.phase), PrepareLeg(true, exact, false), if same then Some(Idempotent) else None);
      if next.None? then Refused
      else if same then Accepted(d)
      else if s.generation + 1 > UINT32_MAX then Refused
      else Accepted(d.(source := s.(phase := next.value, prepared := Some(Leg(start, count)), readBegin := None,
                       generation := s.generation + 1, leg := Leg(start, count))))
  }

  /** `record_read_begin`. */
  function DecideReadBegin(d: Durable, start: int, count: int): Decision {
    var s := d.source;
    if !(0 <= start <= UINT64_MAX) || !(0 <= count <= UINT32_MAX) then Refused
    else if s.prepared != Some(Leg(start, count)) || s.leg != Leg(start, count) then Refused
    else
      var duplicate := s.phase == Receiving && s.readBegin == Some(Leg(start, count));
      var next := PhaseAfter(Some(s.phase), ReadBegin(true, duplicate), Some(if duplicate then Idempotent else Persist));
      if next.None? then Refused
      else if duplicate then Accepted(d)
      else Accepted(d.(source := s.(phase := next.value, readBegin := Some(Leg(start, count)))))
  }

  /** `interrupt`. */
  function DecideInterrupt(d: Durable): Decision {
    var verdict := Transition(Some(d.source.phase), Interruption);
    if verdict.action in {Idempotent, InspectOnly} then Accepted(d)
    else if verdict.action != Persist || verdict.next.None? then Refused
    else Accepted(d.(source := d.source.(phase := verdict.next.value)))
  }

  /** `seal_source`. */
  function DecideSeal(d: Durable, generation: int, count: int, digest: string): Decision {
    var s := d.source;
    if !(0 <= count <= UINT32_MAX) || !IsSha256(digest) || generation != s.generation then Refused
    else if count != s.count || digest != s.digest || s.start + count != s.limit then Refused
    else
      var next := PhaseAfter(Some(s.phase), DONE, Some(Persist));
      if next.None? || d.tail.Some? then Refused
      else Accepted(d.(source := s.(phase := next.value)))
  }

  // ----- conflicts

  /** `classify_conflict`. */
  function Classify(count: nat, hasRecords: bool, reason: Reason, now: int, retention: nat): Custody {
    var disposition := if count > 0 || hasRecords then Unclassified else Unprocessable;
    Custody(if count == 0 && hasRecords then SourceAuthenticationMismatch else reason, disposition,
            if disposition.Unprocessable? then Some(now + retention) else None)
  }

  /** `SELECT COALESCE(MAX(chunk_ordinal), -1)`. */
  function LastConflictOrdinal(conflicts: seq<Conflict>): (last: int)
    ensures last >= -1
  {
    if conflicts == [] then -1
    else Max(conflicts[|conflicts| - 1].ordinal, LastConflictOrdinal(conflicts[..|conflicts| - 1]))
  }

  /** `_block_replay_conflict`: the evidence is kept and the source is blocked. */
  function Quarantined(d: Durable, offset: int, rejected: bytes, reason: Reason, now: int, retention: nat): Durable {
    d.(source := d.source.(kind := Quarantine, phase := Blocked),
       conflicts := d.conflicts
         + [Conflict(LastConflictOrdinal(d.conflicts) + 1, d.source.generation, offset, reason, rejected)],
       custody := Some(Classify(d.source.count, d.rows != [], reason, now, retention)))
  }
}
