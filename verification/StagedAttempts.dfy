/** The attempt that feeds the store: chunks of any length, cut into bounded drains. */
module StagedAttempts {
  import opened AudioMachine
  import opened Bytes
  import opened CaptureDrain
  import opened CaptureRecords
  import opened DrainLaws
  import opened DrainMerge
  import opened DrainSplitting
  import opened DrainTheorems
  import opened InternalAudioStore
  import opened SourceRules
  import opened SourceRuns

  predicate Aligned(payload: bytes) {
    |payload| % AUDIO_RECORD_SIZE == 0
  }

  /** The wire records of a chunk. */
  function Cut(payload: bytes): (raws: seq<RawRecord>)
    ensures |raws| == |payload| / AUDIO_RECORD_SIZE
  {
    seq(|payload| / AUDIO_RECORD_SIZE, i requires 0 <= i < |payload| / AUDIO_RECORD_SIZE =>
      payload[AUDIO_RECORD_SIZE * i..AUDIO_RECORD_SIZE * (i + 1)])
  }

  lemma CutAppends(a: bytes, b: bytes)
    requires Aligned(a)
    ensures Cut(a + b) == Cut(a) + Cut(b)
  {
    var n := |a| / AUDIO_RECORD_SIZE;
    assert |a| == AUDIO_RECORD_SIZE * n;
    assert |a + b| / AUDIO_RECORD_SIZE == n + |b| / AUDIO_RECORD_SIZE;
    forall i | 0 <= i < |Cut(a + b)|
      ensures Cut(a + b)[i] == (Cut(a) + Cut(b))[i]
    {
      var slice := (a + b)[AUDIO_RECORD_SIZE * i..AUDIO_RECORD_SIZE * (i + 1)];
      if i < n {
        assert slice == a[AUDIO_RECORD_SIZE * i..AUDIO_RECORD_SIZE * (i + 1)];
      } else {
        assert slice == b[AUDIO_RECORD_SIZE * (i - n)..AUDIO_RECORD_SIZE * (i - n + 1)];
      }
    }
  }

  lemma {:induction false} CutJoins(payload: bytes)
    requires Aligned(payload)
    ensures Join(Cut(payload)) == payload
    decreases |payload|
  {
    if payload != [] {
      var first, rest := payload[..AUDIO_RECORD_SIZE], payload[AUDIO_RECORD_SIZE..];
      assert payload == first + rest;
      CutAppends(first, rest);
      CutJoins(rest);
      assert |Cut(first)| == 1 && Cut(first)[0] == first[0..AUDIO_RECORD_SIZE] == first;
      assert Cut(first) == [first];
      JoinAppend([first], Cut(rest));
      assert Join([first]) == first;
    }
  }

  /** The checkpoint a chunk ending at record `complete` carries for the bytes that follow it. */
  function FollowingTail(generation: int, complete: int, following: bytes): Option<Tail> {
    if following == [] then None
    else
      Some(Tail(generation, complete, complete * AUDIO_RECORD_SIZE + |following|, complete * AUDIO_RECORD_SIZE, following))
  }

  /** The chunk as one drain, however long it is. */
  function WholeDrain(d: Durable, offset: int, payload: bytes, partial: bytes): Request {
    var records := Cut(payload);
    Plain(offset, records, d.source.generation, FollowingTail(d.source.generation, offset + |records|, partial))
  }

  /** What one unbounded call would make of the chunk. */
  function Unbounded(hash: bytes -> Sha256, d: Durable, offset: int, payload: bytes, partial: bytes): Decision
    requires Placed(d)
  {
    if payload == [] then DecideTail(d, offset, d.source.generation, FollowingTail(d.source.generation, offset, partial))
    else DecideDrain(hash, |Cut(payload)|, d, WholeDrain(d, offset, payload, partial))
  }

  /** A chunk is accepted as a whole exactly if it lies in the leg and contradicts no accepted byte. */
  lemma ChunkIsMerge(hash: bytes -> Sha256, d: Durable, offset: int, payload: bytes, partial: bytes)
    requires Sound(hash, d) && Aligned(payload) && payload != [] && |partial| < AUDIO_RECORD_SIZE
    ensures var n := |Cut(payload)|;
      var decision := Unbounded(hash, d, offset, payload, partial);
      && (decision.Accepted? <==>
            && 0 <= offset <= d.source.count
            && ReceivesLeg(d.source, offset, n, d.source.generation)
            && (partial != [] ==> d.source.start + offset + n < d.source.leg.start + d.source.leg.count)
            && Agrees(Stream(d), AUDIO_RECORD_SIZE * offset, payload + partial))
      && (decision.Accepted? ==>
            && Advanced(hash, d, decision.next, Merge(Stream(d), AUDIO_RECORD_SIZE * offset, payload + partial),
                        Max(d.source.count, offset + n)))
  {
    var q := WholeDrain(d, offset, payload, partial);
    hide Raws, Agrees, Merge, DecideDrain, Advanced, Join, Stream;
    PlainDrain(hash, |q.records|, d, q);
    CutJoins(payload);
    assert Bounded(q.records, |q.records|);
    hide Cut;
    if 0 <= offset <= d.source.count && ReceivesLeg(d.source, offset, |q.records|, d.source.generation) {
      StreamReaches(d);
      assert AUDIO_RECORD_SIZE * offset + |payload| == AUDIO_RECORD_SIZE * (offset + |q.records|) by { RawsParsed(q.records); }
      MergeTwice(Stream(d), AUDIO_RECORD_SIZE * offset, payload, partial);
      if partial == [] {
        assert payload + partial == payload;
      }
    }
  }

  /**
   * A chunk without whole records is accepted exactly at the frontier of a receiving source, with a place left in the
   * leg, if it contradicts no accepted byte.
   */
  lemma PartialIsMerge(hash: bytes -> Sha256, d: Durable, offset: int, partial: bytes)
    requires Reached(hash, d) && 0 < |partial| < 444
    ensures Placed(d)
    ensures var decision := Unbounded(hash, d, offset, [], partial);
      && (decision.Accepted? <==>
            && d.source.phase == Receiving
            && offset == |d.rows|
            && d.source.leg.start <= d.source.start + offset < d.source.leg.start + d.source.leg.count
            && SaysNothingElse(Stream(d), 444 * offset, partial))
      && (decision.Accepted? ==>
            && decision.next == d.(tail := decision.next.tail)
            && 444 * offset <= |Stream(d)|
            && Stream(decision.next) == Extended(Stream(d), 444 * offset, partial))
  {
    hide Raws, DecideTail, Stream, SaysNothingElse, Reached, Extended;
    TailsExactly(hash, d, offset, d.source.generation, FollowingTail(d.source.generation, offset, partial));
  }

  // ----- one chunk after another

  /** `now` is what one drain of everything done so far would have left. */
  ghost predicate Progress(hash: bytes -> Sha256, before: Durable, now: Durable, offset: int, done: bytes) {
    && Sound(hash, before)
    && Sound(hash, now)
    && Aligned(done)
    && now.source.generation == before.source.generation
    && (if done == [] then now == before else Unbounded(hash, before, offset, done, []) == Accepted(now))
  }

  lemma ChunkStep(hash: bytes -> Sha256, before: Durable, now: Durable, offset: int, done: bytes, chunk: bytes, following: bytes)
    requires Progress(hash, before, now, offset, done)
    requires Aligned(chunk) && chunk != []
    ensures var part := Unbounded(hash, now, offset + |Cut(done)|, chunk, following);
      var whole := Unbounded(hash, before, offset, done + chunk, following);
      && (whole.Accepted? <==> part.Accepted?)
      && (whole.Accepted? ==>
            && whole.next == part.next
            && Grown(now, whole.next)
            && (following == [] ==> Progress(hash, before, whole.next, offset, done + chunk)))
  {
    hide Raws, DecideDrain, Cut, Join, Stream;
    var g := before.source.generation;
    CutAppends(done, chunk);
    var a, b := Cut(done), Cut(chunk);
    CutSize(chunk);
    var tail := FollowingTail(g, offset + |a| + |b|, following);
    if done == [] {
      assert done + chunk == chunk;
      CutSize(done);
    } else {
      CutSize(done);
      SplitDrain(hash, before, offset, a, b, g, tail);
    }
    if Unbounded(hash, now, offset + |a|, chunk, following).Accepted? {
      DrainGrows(hash, |b|, now, WholeDrain(now, offset + |a|, chunk, following));
      AcceptedFits(hash, |b|, now, WholeDrain(now, offset + |a|, chunk, following));
    }
  }

  /** One turn of the loop: the bounded drain from `position` to `end` stands for the drain of everything up to `end`. */
  lemma LoopStep(hash: bytes -> Sha256, before: Durable, at: Durable, offset: int, records: bytes, tail: bytes,
                 position: nat, end: nat)
    requires position < end <= |records| && Aligned(records)
    requires Progress(hash, before, at, offset, records[..position]) && Aligned(records[position..end])
    ensures Placed(before) && Placed(at)
    ensures var following := if end == |records| then tail else [];
      var part := Unbounded(hash, at, offset + position / AUDIO_RECORD_SIZE, records[position..end], following);
      && (part.Accepted? && end < |records| ==> Progress(hash, before, part.next, offset, records[..end]))
      && (part.Accepted? && end == |records| ==> Unbounded(hash, before, offset, records, tail) == part)
      && (!part.Accepted? ==> !Unbounded(hash, before, offset, records, tail).Accepted?)
  {
    hide Unbounded, Cut, Raws;
    var done, chunk := records[..position], records[position..end];
    var following := if end == |records| then tail else [];
    CutSize(done);
    assert position / AUDIO_RECORD_SIZE == |Cut(done)|;
    assert done + chunk == records[..end];
    assert records == records[..end] + records[end..] && records[..|records|] == records;
    ChunkStep(hash, before, at, offset, done, chunk, following);
    if !Unbounded(hash, before, offset, records[..end], following).Accepted? {
      StartNeeded(hash, before, offset, records[..end], records[end..], tail);
    }
  }

  lemma CutSize(payload: bytes)
    requires Aligned(payload)
    ensures AUDIO_RECORD_SIZE * |Cut(payload)| == |payload|
    ensures payload != [] <==> Cut(payload) != []
  {}

  /** A chunk that is refused at its start is refused as a whole. */
  lemma StartNeeded(hash: bytes -> Sha256, d: Durable, offset: int, start: bytes, rest: bytes, partial: bytes)
    requires Sound(hash, d) && Aligned(start) && Aligned(rest) && start != []
    requires !Unbounded(hash, d, offset, start, if rest == [] then partial else []).Accepted?
    ensures !Unbounded(hash, d, offset, start + rest, partial).Accepted?
  {
    hide Raws, DecideDrain, Cut, Join, Stream;
    CutAppends(start, rest);
    CutSize(start);
    CutSize(rest);
    if rest == [] {
      assert start + rest == start;
    } else {
      var g := d.source.generation;
      SplitDrain(hash, d, offset, Cut(start), Cut(rest), g, FollowingTail(g, offset + |Cut(start)| + |Cut(rest)|, partial));
    }
  }

  // ----- the attempt

  datatype Acceptance =
    | Taken
    | Malformed
    | Regressed
    | Unaccepted
    | Fatal

  datatype Descriptor = Descriptor(start: nat, packetCount: nat, readBegin: Option<Leg>)

  datatype Seal = Seal(start: nat, next: nat, recordCount: nat, digest: Sha256)

  /** Every transaction takes effect and can be inspected if it reports an error. */
  ghost predicate Reliable(commits: nat -> Commit) {
    forall i :: commits(i).TookEffect() && commits(i).Inspectable()
  }

  /** A reply of success means the accepted state is durable; a reliable commit of an accepted one replies success. */
  lemma StoredIsNext(d: Durable, decision: Decision, commit: Commit, now: int, retention: nat)
    ensures var (after, reply) := Answer(d, decision, commit, now, retention);
      && (reply.Stored? ==> decision == CaptureDrain.Accepted(after))
      && (decision.Accepted? && commit.TookEffect() && commit.Inspectable() ==> reply.Stored?)
      && (!reply.FailStopped? || !commit.Inspectable())
  {
    hide Quarantined;
  }

  lemma AnswerGrows(hash: bytes -> Sha256, d: Durable, offset: int, payload: bytes, partial: bytes,
                    commit: Commit, now: int, retention: nat)
    requires Sound(hash, d) && Aligned(payload)
    ensures Grown(d, Answer(d, Unbounded(hash, d, offset, payload, partial), commit, now, retention).0)
  {
    hide Sound, Quarantined, DecideDrain, DecideTail, Answer, Cut, Grown;
    var operation :=
      if payload == [] then
        CommitTail(offset, d.source.generation, FollowingTail(d.source.generation, offset, partial))
      else CommitDrain(|Cut(payload)|, WholeDrain(d, offset, payload, partial));
    AnswerSound(hash, d, operation, commit, now, retention);
  }

  lemma DatabaseHas(hash: bytes -> Sha256, db: Database, id: SourceId)
    requires DatabaseSound(hash, db) && id in db
    ensures Sound(hash, db[id])
  {}

  lemma TouchNothing(db: Database, id: SourceId)
    requires id in db
    ensures OnlyTouched(db, db, id)
  {}

  lemma TouchedTwice(a: Database, b: Database, c: Database, id: SourceId)
    requires OnlyTouched(a, b, id) && OnlyTouched(b, c, id)
    ensures OnlyTouched(a, c, id) && id in c
  {}

  lemma SelfGrown(d: Durable)
    ensures Grown(d, d)
  {}

  lemma ReliableAt(commits: nat -> Commit, k: nat)
    ensures Reliable(commits) ==> commits(k).TookEffect() && commits(k).Inspectable()
  {}

  lemma GrownTwice(a: Durable, b: Durable, c: Durable)
    requires Grown(a, b) && Grown(b, c)
    ensures Grown(a, c)
  {
    hide Stream;
  }

  class StagedAttempt {
    const store: InternalAudioStore
    const id: SourceId
    var descriptor: Descriptor
    var closed: bool

    constructor (store: InternalAudioStore, id: SourceId, descriptor: Descriptor)
      ensures this.store == store && this.id == id && this.descriptor == descriptor && !closed
    {
      this.store, this.id, this.descriptor, closed := store, id, descriptor, false;
    }

    ghost predicate Valid()
      reads this, store, store.states
    {
      store.Valid() && id in store.db
    }

    /** `_refresh_descriptor`. */
    method RefreshDescriptor()
      requires Valid()
      modifies `descriptor
      ensures descriptor == old(descriptor).(readBegin := store.db[id].source.readBegin)
    {
      descriptor := descriptor.(readBegin := store.db[id].source.readBegin);
    }

    /** `_commit_record_chunk`. */
    method CommitRecordChunk(expected: int, chunk: bytes, following: bytes, commit: Commit, now: int)
      returns (reply: Reply)
      requires Valid() && !store.failed && Aligned(chunk)
      requires 0 < |chunk| <= store.chunkLimit * AUDIO_RECORD_SIZE
      modifies store`db, store`digestCache, store`states, store`failed
      ensures Valid() && OnlyTouched(old(store.db), store.db, id)
      ensures Placed(old(store.db[id])) &&
        Answered(old(store.db[id]), store.db[id], Unbounded(store.hash, old(store.db[id]), expected, chunk, following),
                 commit, now, store.retention, reply, store.failed)
    {
      hide Sound, EntryFits, Raws, DecideDrain, Answered;
      var q := WholeDrain(store.db[id], expected, chunk, following);
      CutSize(chunk);
      DatabasePlaced(store.hash, store.db);
      LimitOnlyBounds(store.hash, store.chunkLimit, store.db[id], q);
      reply := store.CommitDrain(id, q, commit, now);
    }

    /** `_commit_partial_tail`. */
    method CommitPartialTail(offset: int, partial: bytes, commit: Commit, now: int) returns (reply: Reply)
      requires Valid() && !store.failed && partial != []
      modifies store`db, store`digestCache, store`states, store`failed
      ensures Valid() && OnlyTouched(old(store.db), store.db, id)
      ensures Placed(old(store.db[id])) &&
        Answered(old(store.db[id]), store.db[id], Unbounded(store.hash, old(store.db[id]), offset, [], partial), commit, now,
                 store.retention, reply, store.failed)
    {
      hide Sound, EntryFits, Raws, DecideTail, Answered;
      var generation := store.db[id].source.generation;
      reply := store.CommitTail(id, offset, generation, FollowingTail(generation, offset, partial), commit, now);
    }

    /** One turn of the loop of `accept_chunk`. */
    method CommitSlice(ghost before: Durable, offset: nat, records: bytes, tail: bytes, position: nat, end: nat, commit: Commit,
                       now: int) returns (reply: Reply)
      requires Valid() && !store.failed && Aligned(records)
      requires position < |records| && end == SliceEnd(store.chunkLimit, |records|, position)
      requires SliceReady(store.hash, before, store.db[id], offset, records, position)
      modifies store`db, store`digestCache, store`states, store`failed
      ensures Valid() && OnlyTouched(old(store.db), store.db, id)
      ensures store.failed == reply.FailStopped?
      ensures SliceDone(store.hash, before, store.db[id], offset, records, tail, end, commit, reply)
    {
      hide Sound, EntryFits, DatabaseSound, Unbounded, SliceEnd, SliceReady, SliceDone, Answered, Aligned, OnlyTouched, Placed,
        FollowingTail, Raws;
      SliceFits(store.hash, before, store.db[id], offset, records, position, store.chunkLimit);
      var following := if end == |records| then tail else [];
      var expected := offset + position / AUDIO_RECORD_SIZE;
      ghost var at := store.db[id];
      reply := CommitRecordChunk(expected, records[position..end], following, commit, now);
      SliceCommitted(store.hash, before, at, store.db[id], offset, records, tail, position, end, commit, now, store.retention,
                     reply, store.failed);
    }

    /** The loop of `accept_chunk`: one bounded drain after another, the tail with the last. */
    method CommitRecords(offset: nat, records: bytes, tail: bytes, commits: nat -> Commit, now: int)
      returns (result: Acceptance)
      requires Valid() && !store.failed && Aligned(records) && records != []
      modifies store`db, store`digestCache, store`states, store`failed
      ensures Valid() && OnlyTouched(old(store.db), store.db, id)
      ensures ChunkAnswered(store.hash, old(store.db[id]), store.db[id], offset, records, tail, Reliable(commits), result)
    {
      ghost var before := store.db[id];
      StartReady(store.hash, before, offset, records);
      hide Sound, EntryFits, DatabaseSound, SliceReady, SliceDone, SliceEnd, ChunkAnswered, Reliable, Aligned, Raws, Placed,
        OnlyTouched;
      TouchNothing(store.db, id);
      var position, k := 0, 0;
      while position < |records|
        invariant 0 <= position <= |records|
        invariant Valid() && !store.failed && OnlyTouched(old(store.db), store.db, id)
        invariant position < |records| ==> SliceReady(store.hash, before, store.db[id], offset, records, position)
        invariant position == |records| ==>
          ChunkAnswered(store.hash, before, store.db[id], offset, records, tail, Reliable(commits), Taken)
      {
        var end := SliceEnd(store.chunkLimit, |records|, position);
        ghost var db := store.db;
        var reply := CommitSlice(before, offset, records, tail, position, end, commits(k), now);
        TouchedTwice(old(store.db), db, store.db, id);
        ReliableAt(commits, k);
        SliceEnds(store.hash, before, store.db[id], offset, records, tail, end, commits(k), reply, Reliable(commits));
        if !reply.Stored? {
          return if reply.FailStopped? then Fatal else Unaccepted;
        }
        position, k := end, k + 1;
      }
      result := Taken;
    }

    /**
     * `accept_chunk`: the i-th transaction meets `commits(i)`. A chunk that is taken leaves exactly what one unbounded
     * drain of it leaves; one that is not taken has lost nothing; over reliable commits, exactly those chunks are taken
     * that the unbounded drain accepts.
     */
    method AcceptChunk(start: int, records: bytes, tail: bytes, commits: nat -> Commit, now: int)
      returns (result: Acceptance)
      requires Valid()
      modifies `descriptor, store`db, store`digestCache, store`states, store`failed
      ensures Valid() && OnlyTouched(old(store.db), store.db, id)
      ensures descriptor ==
        if result.Taken? then old(descriptor).(readBegin := store.db[id].source.readBegin) else old(descriptor)
      ensures result.Malformed? <==>
        closed || !Aligned(records) || |tail| >= AUDIO_RECORD_SIZE || (records == [] && tail == [])
      ensures result.Regressed? <==> !result.Malformed? && start < old(descriptor.start)
      ensures result.Malformed? || result.Regressed? || old(store.failed) ==> store.db == old(store.db) && !result.Taken?
      ensures !result.Malformed? && !result.Regressed? && !old(store.failed) ==>
        ChunkAnswered(store.hash, old(store.db[id]), store.db[id], start - old(descriptor.start), records, tail,
                      Reliable(commits), result)
    {
      hide Sound, EntryFits, DatabaseSound, Reliable, Raws, Placed, Unbounded, Grown;
      if closed || !Aligned(records) || |tail| >= AUDIO_RECORD_SIZE || (records == [] && tail == []) {
        return Malformed;
      }
      var offset := start - descriptor.start;
      if offset < 0 {
        return Regressed;
      }
      if store.failed {
        return Unaccepted;
      }
      result := CommitChunk(offset, records, tail, commits, now);
      if result.Taken? {
        RefreshDescriptor();
      }
    }

    method CommitChunk(offset: nat, records: bytes, tail: bytes, commits: nat -> Commit, now: int)
      returns (result: Acceptance)
      requires Valid() && !store.failed && Aligned(records) && (records == [] ==> tail != [])
      modifies store`db, store`digestCache, store`states, store`failed
      ensures Valid() && OnlyTouched(old(store.db), store.db, id)
      ensures ChunkAnswered(store.hash, old(store.db[id]), store.db[id], offset, records, tail, Reliable(commits), result)
    {
      hide Sound, EntryFits, DatabaseSound, ChunkAnswered, Reliable, Answered, Aligned, Unbounded;
      if records != [] {
        result := CommitRecords(offset, records, tail, commits, now);
      } else {
        ghost var before := store.db[id];
        DatabaseHas(store.hash, store.db, id);
        var reply := CommitPartialTail(offset, tail, commits(0), now);
        ReliableAt(commits, 0);
        TailEnds(store.hash, before, store.db[id], offset, tail, commits(0), now, store.retention, reply, store.failed,
                 Reliable(commits));
        result := if reply.Stored? then Taken else if reply.FailStopped? then Fatal else Unaccepted;
      }
    }

    /** `seal`: custody of the whole source, or nothing. */
    method SealAttempt(doneOk: bool, nextSequence: int, commit: Commit) returns (seal: Option<Seal>)
      requires Valid()
      modifies `descriptor, store`db, store`failed
      ensures Valid() && OnlyTouched(old(store.db), store.db, id)
      ensures SealAnswered(store.hash, old(store.db[id]), store.db[id], old(descriptor), doneOk && !closed && !old(store.failed),
                           nextSequence, commit, seal)
      ensures descriptor ==
        if seal.Some? then old(descriptor).(readBegin := store.db[id].source.readBegin) else old(descriptor)
    {
      hide Sound, EntryFits, DatabaseSound, SealAnswered;
      ghost var before := store.db[id];
      var source := store.db[id].source;
      DatabaseHas(store.hash, store.db, id);
      SealRefused(store.hash, before, descriptor, doneOk && !closed && !store.failed, nextSequence, commit);
      if closed || !doneOk || source.count != descriptor.packetCount {
        return None;
      }
      if nextSequence != descriptor.start + descriptor.packetCount {
        return None;
      }
      ghost var running := !store.failed;
      var reply := store.SealSource(id, source.generation, source.count, source.digest, commit);
      SealSettled(store.hash, before, store.db[id], descriptor, running, nextSequence, commit, store.retention, reply,
                  store.failed);
      seal := None;
      if reply.Stored? {
        seal := Some(Seal(source.start, source.start + source.count, source.count, source.digest));
        RefreshDescriptor();
      }
    }
  }

  /** When `seal` reaches the store, given that the attempt is open, DONE was good and the store runs. */
  predicate Sealable(d: Durable, descriptor: Descriptor, ready: bool, nextSequence: int) {
    && ready
    && d.source.count == descriptor.packetCount
    && nextSequence == descriptor.start + descriptor.packetCount
    && d.source.start + d.source.count == d.source.limit
    && d.source.phase in {Receiving, Interrupted}
  }

  /**
   * A seal names exactly the durable records and their digest and is given only for a complete sealed source; without
   * one the source is untouched, unless a commit of unknown outcome stopped the store.
   */
  predicate SealAnswered(hash: bytes -> Sha256, before: Durable, after: Durable, descriptor: Descriptor, ready: bool,
                         nextSequence: int, commit: Commit, seal: Option<Seal>)
  {
    && Sound(hash, before)
    && (seal.Some? ==>
          && Sealable(before, descriptor, ready, nextSequence)
          && after == before.(source := before.source.(phase := SealedWaiting))
          && after.tail.None?
          && seal.value == Seal(after.source.start, after.source.limit, |after.rows|, hash(Raws(after.rows))))
    && (seal.None? && commit.Inspectable() ==> after == before)
    && (commit.TookEffect() && commit.Inspectable() ==>
          (seal.Some? <==> Sealable(before, descriptor, ready, nextSequence)))
  }

  lemma SealRefused(hash: bytes -> Sha256, d: Durable, descriptor: Descriptor, ready: bool, nextSequence: int, commit: Commit)
    requires Sound(hash, d)
    ensures !(ready && d.source.count == descriptor.packetCount
              && nextSequence == descriptor.start + descriptor.packetCount) ==>
      SealAnswered(hash, d, d, descriptor, ready, nextSequence, commit, None)
  {
    hide Raws;
  }

  lemma SealSettled(hash: bytes -> Sha256, before: Durable, after: Durable, descriptor: Descriptor, running: bool,
                    nextSequence: int, commit: Commit, retention: nat, reply: Reply, failed: bool)
    requires Sound(hash, before)
    requires before.source.count == descriptor.packetCount && nextSequence == descriptor.start + descriptor.packetCount
    requires !running ==> after == before && reply.Rejected?
    requires running ==>
      Answered(before, after, DecideSeal(before, before.source.generation, before.source.count, before.source.digest), commit,
               0, retention, reply, failed)
    ensures SealAnswered(hash, before, after, descriptor, running, nextSequence, commit,
      if reply.Stored? then
        Some(Seal(before.source.start, before.source.start + before.source.count, before.source.count, before.source.digest))
      else None)
  {
    hide Raws;
    SealMeetsNoTail(hash, before, before.source.generation, before.source.count, before.source.digest);
  }

  // ----- what a chunk comes to

  /** The source is sound, and everything before `position` is what one drain of it leaves. */
  ghost predicate SliceReady(hash: bytes -> Sha256, before: Durable, at: Durable, offset: int, records: bytes, position: nat) {
    position <= |records| && Progress(hash, before, at, offset, records[..position]) && Grown(before, at)
  }

  ghost predicate SliceDone(hash: bytes -> Sha256, before: Durable, after: Durable, offset: int, records: bytes, tail: bytes,
                            end: nat, commit: Commit, reply: Reply)
  {
    && Placed(before)
    && Grown(before, after)
    && (reply.Stored? && end < |records| ==> SliceReady(hash, before, after, offset, records, end))
    && (reply.Stored? && end == |records| ==>
          Unbounded(hash, before, offset, records, tail) == CaptureDrain.Accepted(after))
    && (!reply.Stored? && commit.TookEffect() && commit.Inspectable() ==>
          !reply.FailStopped? && !Unbounded(hash, before, offset, records, tail).Accepted?)
  }

  /**
   * A taken chunk leaves what one unbounded drain leaves, any other has lost nothing; over reliable commits exactly
   * the chunks the unbounded drain accepts are taken.
   */
  ghost predicate ChunkAnswered(hash: bytes -> Sha256, before: Durable, after: Durable, offset: int, records: bytes,
                                tail: bytes, reliable: bool, result: Acceptance)
  {
    && Placed(before)
    && Grown(before, after)
    && var whole := Unbounded(hash, before, offset, records, tail);
    && (result.Taken? ==> whole == CaptureDrain.Accepted(after))
    && (reliable ==> (result.Taken? <==> whole.Accepted?) && !result.Fatal?)
    && (result.Taken? || result.Unaccepted? || result.Fatal?)
  }

  /** Where the slice that starts at `position` ends. */
  function SliceEnd(limit: nat, size: nat, position: nat): (end: nat)
    requires limit > 0 && position < size
    ensures position < end <= size
  {
    Min(position + limit * AUDIO_RECORD_SIZE, size)
  }

  lemma SliceFits(hash: bytes -> Sha256, before: Durable, at: Durable, offset: int, records: bytes, position: nat, limit: nat)
    requires Aligned(records) && limit > 0 && position < |records|
    requires SliceReady(hash, before, at, offset, records, position)
    ensures var end := SliceEnd(limit, |records|, position);
      end - position <= limit * AUDIO_RECORD_SIZE && Aligned(records[position..end])
  {
    hide Progress, Raws, Grown;
    assert position % AUDIO_RECORD_SIZE == 0 by { ProgressAligned(hash, before, at, offset, records[..position]); }
    SliceAligned(limit, |records|, position);
  }

  lemma SliceAligned(limit: nat, size: nat, position: nat)
    requires limit > 0 && position < size && size % 444 == 0 && position % 444 == 0
    ensures 0 < SliceEnd(limit, size, position) - position <= 444 * limit
    ensures (SliceEnd(limit, size, position) - position) % 444 == 0
  {
    var end := SliceEnd(limit, size, position);
    var left := if end == size then size / 444 - position / 444 else limit;
    assert end - position == 444 * left;
  }

  lemma SliceCommitted(hash: bytes -> Sha256, before: Durable, at: Durable, after: Durable, offset: int, records: bytes,
                       tail: bytes, position: nat, end: nat, commit: Commit, now: int, retention: nat, reply: Reply,
                       failed: bool)
    requires position < end <= |records| && Aligned(records) && Aligned(records[position..end])
    requires SliceReady(hash, before, at, offset, records, position) && Placed(at)
    requires var following := if end == |records| then tail else [];
      Answered(at, after, Unbounded(hash, at, offset + position / AUDIO_RECORD_SIZE, records[position..end], following), commit,
               now, retention, reply, failed)
    ensures failed == reply.FailStopped?
    ensures SliceDone(hash, before, after, offset, records, tail, end, commit, reply)
  {
    hide Sound, Unbounded, Answer, Grown, Progress, Aligned;
    var following := if end == |records| then tail else [];
    var expected := offset + position / AUDIO_RECORD_SIZE;
    LoopStep(hash, before, at, offset, records, tail, position, end);
    StoredIsNext(at, Unbounded(hash, at, expected, records[position..end], following), commit, now, retention);
    ProgressSound(hash, before, at, offset, records[..position]);
    AnswerGrows(hash, at, expected, records[position..end], following, commit, now, retention);
    GrownTwice(before, at, after);
  }

  lemma ProgressAligned(hash: bytes -> Sha256, before: Durable, at: Durable, offset: int, done: bytes)
    requires Progress(hash, before, at, offset, done)
    ensures Aligned(done)
  {}

  lemma StartReady(hash: bytes -> Sha256, d: Durable, offset: int, records: bytes)
    requires Sound(hash, d)
    ensures SliceReady(hash, d, d, offset, records, 0)
  {
    SelfGrown(d);
  }

  lemma ProgressSound(hash: bytes -> Sha256, before: Durable, at: Durable, offset: int, done: bytes)
    requires Progress(hash, before, at, offset, done)
    ensures Sound(hash, at)
  {}

  lemma SliceEnds(hash: bytes -> Sha256, before: Durable, after: Durable, offset: int, records: bytes, tail: bytes, end: nat,
                  commit: Commit, reply: Reply, reliable: bool)
    requires SliceDone(hash, before, after, offset, records, tail, end, commit, reply) && end <= |records|
    requires reliable ==> commit.TookEffect() && commit.Inspectable()
    ensures reply.Stored? && end < |records| ==> SliceReady(hash, before, after, offset, records, end)
    ensures reply.Stored? && end == |records| ==>
      ChunkAnswered(hash, before, after, offset, records, tail, reliable, Taken)
    ensures !reply.Stored? ==>
      ChunkAnswered(hash, before, after, offset, records, tail, reliable, if reply.FailStopped? then Fatal else Unaccepted)
  {
    hide Unbounded, SliceReady, Grown, Placed;
  }

  lemma TailEnds(hash: bytes -> Sha256, d: Durable, after: Durable, offset: int, tail: bytes, commit: Commit, now: int,
                 retention: nat, reply: Reply, failed: bool, reliable: bool)
    requires Sound(hash, d)
    requires Answered(d, after, Unbounded(hash, d, offset, [], tail), commit, now, retention, reply, failed)
    requires reliable ==> commit.TookEffect() && commit.Inspectable()
    ensures ChunkAnswered(hash, d, after, offset, [], tail, reliable,
                          if reply.Stored? then Taken else if reply.FailStopped? then Fatal else Unaccepted)
  {
    hide Unbounded, Grown, Answer;
    StoredIsNext(d, Unbounded(hash, d, offset, [], tail), commit, now, retention);
    AnswerGrows(hash, d, offset, [], tail, commit, now, retention);
  }
}
