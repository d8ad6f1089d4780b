/** The audio store: durable sources, the running digest with its cache, and commits of unknown outcome. */
module InternalAudioStore {
  import opened AudioMachine
  import opened Authentication
  import opened Bytes
  import opened CaptureDrain
  import opened CaptureRecords
  import opened DrainTheorems
  import opened SourceRuns

  type SourceId = string

  type Database = map<SourceId, Durable>

  const MAX_CHUNK_LIMIT: nat := 128

  /** A running hash: what it has absorbed, and nothing else, determines its digest. */
  class HashState {
    var absorbed: bytes

    constructor ()
      ensures absorbed == []
    {
      absorbed := [];
    }

    method Update(data: bytes)
      modifies this
      ensures absorbed == old(absorbed) + data
    {
      absorbed := absorbed + data;
    }

    function HexDigest(hash: bytes -> Sha256): Sha256
      reads this
    {
      hash(absorbed)
    }

    method Copy() returns (copy: HashState)
      ensures fresh(copy) && copy.absorbed == absorbed
    {
      copy := new HashState();
      copy.absorbed := absorbed;
    }
  }

  datatype CacheEntry = CacheEntry(count: nat, digest: Sha256, state: HashState)

  // ----- what holds between calls, said of values

  ghost predicate DatabaseSound(hash: bytes -> Sha256, db: Database) {
    forall id :: id in db ==> Sound(hash, db[id])
  }

  /** The entry absorbed exactly the records it counts, and those are still the first ones stored. */
  predicate EntryFits(hash: bytes -> Sha256, d: Durable, count: nat, digest: Sha256, absorbed: bytes) {
    && count <= |d.rows|
    && absorbed == Raws(d.rows[..count])
    && digest == hash(absorbed)
  }

  lemma EntryStillFits(hash: bytes -> Sha256, d: Durable, next: Durable, count: nat, digest: Sha256, absorbed: bytes)
    requires EntryFits(hash, d, count, digest, absorbed) && d.rows <= next.rows
    ensures EntryFits(hash, next, count, digest, absorbed)
  {
    hide Raws;
    assert next.rows[..count] == d.rows[..count];
  }

  lemma WholeEntryFits(hash: bytes -> Sha256, d: Durable)
    requires Sound(hash, d)
    ensures EntryFits(hash, d, d.source.count, d.source.digest, Raws(d.rows))
  {
    assert d.rows[..|d.rows|] == d.rows;
  }

  lemma DigestMatches(hash: bytes -> Sha256, d: Durable)
    requires Sound(hash, d)
    ensures hash(Raws(d.rows)) == d.source.digest && |d.rows| == d.source.count && Placed(d)
  {}

  lemma DatabasePlaced(hash: bytes -> Sha256, db: Database)
    requires DatabaseSound(hash, db)
    ensures forall id :: id in db ==> Placed(db[id])
  {}

  /** A cached state whose key is the checkpoint has absorbed every committed record. */
  lemma CacheHitIsWhole(hash: bytes -> Sha256, d: Durable, count: nat, digest: Sha256, absorbed: bytes)
    requires Sound(hash, d) && EntryFits(hash, d, count, digest, absorbed) && count == d.source.count
    ensures absorbed == Raws(d.rows)
  {
    assert d.rows[..count] == d.rows;
  }

  lemma NothingAbsorbed(rows: seq<Record>)
    ensures Raws(rows[..0]) == []
  {}

  lemma PageAbsorbed(rows: seq<Record>, count: nat, end: nat)
    requires count <= end <= |rows|
    ensures Raws(rows[..end]) == Raws(rows[..count]) + Raws(rows[count..end])
  {
    hide Raws;
    assert rows[..end] == rows[..count] + rows[count..end];
    RawsAppend(rows[..count], rows[count..end]);
  }

  // ----- the store

  class InternalAudioStore {
    const hash: bytes -> Sha256
    const chunkLimit: nat
    const retention: nat
    var db: Database
    var digestCache: map<SourceId, CacheEntry>
    var failed: bool
    ghost var states: set<HashState>

    ghost predicate CacheFits()
      reads this, states
    {
      forall id :: id in digestCache ==>
        var entry := digestCache[id];
        && id in db
        && entry.state in states
        && EntryFits(hash, db[id], entry.count, entry.digest, entry.state.absorbed)
    }

    ghost predicate Valid()
      reads this, states
    {
      && 0 < chunkLimit <= MAX_CHUNK_LIMIT
      && DatabaseSound(hash, db)
      && CacheFits()
    }

    /** The entry of this source is the one for this checkpoint. */
    predicate Caches(id: SourceId, count: nat, digest: Sha256)
      reads this
    {
      id in digestCache && digestCache[id].count == count && digestCache[id].digest == digest
    }

    constructor (hash: bytes -> Sha256, chunkLimit: nat, retention: nat, db: Database)
      requires 0 < chunkLimit <= MAX_CHUNK_LIMIT && DatabaseSound(hash, db)
      ensures Valid() && this.db == db && !failed
      ensures this.hash == hash && this.chunkLimit == chunkLimit && this.retention == retention
    {
      this.hash, this.chunkLimit, this.retention := hash, chunkLimit, retention;
      this.db, digestCache, failed, states := db, map[], false, {};
    }

    /** The transaction for one source takes effect. */
    method Apply(id: SourceId, next: Durable)
      requires Valid() && id in db && Sound(hash, next) && db[id].rows <= next.rows
      modifies `db
      ensures Valid() && db == old(db)[id := next]
    {
      hide Sound, EntryFits;
      forall other | other in digestCache && other == id
        ensures EntryFits(hash, next, digestCache[id].count, digestCache[id].digest, digestCache[id].state.absorbed)
      {
        EntryStillFits(hash, db[id], next, digestCache[id].count, digestCache[id].digest, digestCache[id].state.absorbed);
      }
      db := db[id := next];
    }

    /** `_publish_digest`: one entry, of its own. */
    method PublishDigest(id: SourceId, count: nat, digest: Sha256, state: HashState)
      requires Valid() && id in db
      requires EntryFits(hash, db[id], count, digest, state.absorbed)
      modifies `digestCache, `states
      ensures Valid() && state !in states
      ensures digestCache.Keys == {id} && Caches(id, count, digest)
      ensures fresh(digestCache[id].state) && digestCache[id].state.absorbed == state.absorbed
    {
      var copy := state.Copy();
      digestCache, states := map[id := CacheEntry(count, digest, copy)], {copy};
    }

    /** `_digest_state`: a state that absorbed exactly the committed records and that nobody else holds. */
    method DigestState(id: SourceId) returns (digest: HashState)
      requires Valid() && id in db
      modifies `digestCache, `states
      ensures Valid()
      ensures fresh(digest) && digest !in states
      ensures digest.absorbed == Raws(db[id].rows)
      ensures Caches(id, db[id].source.count, db[id].source.digest)
      ensures old(Caches(id, db[id].source.count, db[id].source.digest)) ==> digestCache == old(digestCache)
    {
      hide Sound, EntryFits, Raws;
      if Caches(id, db[id].source.count, db[id].source.digest) {
        var entry := digestCache[id];
        CacheHitIsWhole(hash, db[id], entry.count, entry.digest, entry.state.absorbed);
        digest := entry.state.Copy();
      } else {
        digest := Rescan(id);
      }
    }

    method Rescan(id: SourceId) returns (digest: HashState)
      requires Valid() && id in db
      modifies `digestCache, `states
      ensures Valid()
      ensures fresh(digest) && digest !in states
      ensures digest.absorbed == Raws(db[id].rows)
      ensures Caches(id, db[id].source.count, db[id].source.digest)
    {
      hide Sound, EntryFits, Raws;
      digest := new HashState();
      AbsorbRows(digest, db[id].rows);
      WholeEntryFits(hash, db[id]);
      DigestMatches(hash, db[id]);
      assert digest.HexDigest(hash) == db[id].source.digest;
      PublishDigest(id, db[id].source.count, db[id].source.digest, digest);
    }

    /** The paged scan of `_digest_state`. */
    method AbsorbRows(digest: HashState, rows: seq<Record>)
      requires chunkLimit > 0 && digest.absorbed == []
      modifies digest
      ensures digest.absorbed == Raws(rows)
    {
      hide Raws;
      var count := 0;
      NothingAbsorbed(rows);
      while count < |rows|
        invariant 0 <= count <= |rows| && digest.absorbed == Raws(rows[..count])
      {
        var end := Min(count + chunkLimit, |rows|);
        PageAbsorbed(rows, count, end);
        AbsorbRecords(digest, rows[count..end]);
        count := end;
      }
      assert rows[..count] == rows;
    }

    /** One state updated with each record in turn. */
    method AbsorbRecords(digest: HashState, records: seq<Record>)
      modifies digest
      ensures digest.absorbed == old(digest.absorbed) + Raws(records)
    {
      ghost var before := digest.absorbed;
      for i := 0 to |records|
        invariant digest.absorbed == before + Raws(records[..i])
      {
        ghost var absorbed := Raws(records[..i]);
        assert records[..i + 1][..i] == records[..i];
        ConcatAssociates(before, absorbed, records[i].RawBytes());
        digest.Update(records[i].RawBytes());
      }
      assert records[..|records|] == records;
    }

    // ----- outcomes of commits

    /** `_recover_ambiguous`: tells whether the proposed state or the old one is durable. */
    method RecoverAmbiguous(id: SourceId, ghost before: Durable, proposal: Proposal, readable: bool) returns (reply: Reply)
      requires Valid() && !failed && id in db
      requires ProposalOn(before, proposal) && proposal.Next(before) != before
      requires db[id] == before || db[id] == proposal.Next(before)
      modifies `digestCache, `states, `failed
      ensures Valid() && failed == !readable
      ensures reply ==
        if !readable then FailStopped
        else if db[id] == before then RolledBack
        else Stored(proposal.newCount)
      ensures if failed then id !in digestCache else Caches(id, db[id].source.count, db[id].source.digest)
    {
      hide Sound, EntryFits, SameBytes;
      digestCache := digestCache - {id};
      if !readable {
        failed := true;
        return FailStopped;
      }
      var authenticated := DigestState(id);
      InspectionTells(before, db[id], proposal);
      WholeEntryFits(hash, db[id]);
      if ShowsProposed(db[id], proposal) {
        PublishDigest(id, proposal.newCount, proposal.digest, authenticated);
        reply := Stored(proposal.newCount);
      } else if ShowsOld(db[id], proposal) {
        PublishDigest(id, proposal.source.count, proposal.source.digest, authenticated);
        reply := RolledBack;
      } else {
        assert false;
      }
    }

    /** One transaction for a drain or a tail, with its recovery. */
    method CommitProposal(id: SourceId, proposal: Proposal, commit: Commit) returns (reply: Reply)
      requires Valid() && !failed && id in db
      requires Proposes(hash, db[id], proposal)
      modifies `db, `digestCache, `states, `failed
      ensures Valid() && OnlyTouched(old(db), db, id)
      ensures Answered(old(db[id]), db[id], Accepted(proposal.Next(old(db[id]))), commit, 0, 0, reply, failed)
      ensures if commit.Confirmed? then digestCache == old(digestCache)
              else if failed then id !in digestCache
              else Caches(id, db[id].source.count, db[id].source.digest)
    {
      hide Sound, EntryFits;
      ghost var before := db[id];
      if commit.TookEffect() {
        Apply(id, proposal.Next(db[id]));
      }
      if commit.Confirmed? {
        return Stored(proposal.newCount);
      }
      reply := RecoverAmbiguous(id, before, proposal, commit.readable);
    }

    /** `_block_replay_conflict`; its own guard on the evidence is a precondition here because no caller breaks it. */
    method BlockReplayConflict(id: SourceId, offset: int, rejected: bytes, reason: Reason, commit: Commit, now: int)
      requires Valid() && !failed && id in db && db[id].source.phase == Receiving
      requires 0 < |rejected| <= chunkLimit * AUDIO_RECORD_SIZE
      modifies `db
      ensures Valid() && OnlyTouched(old(db), db, id)
      ensures db[id] == Answer(old(db[id]), Contested(offset, rejected, reason), commit, now, retention).0
    {
      if commit.TookEffect() {
        QuarantinedSound(hash, db[id], offset, rejected, reason, now, retention);
        hide Sound, EntryFits;
        Apply(id, Quarantined(db[id], offset, rejected, reason, now, retention));
      }
    }

    /** The digest the appended records would leave. */
    method ProposeDigest(id: SourceId, parsed: seq<Record>) returns (proposed: HashState)
      requires Valid() && id in db
      modifies `digestCache, `states
      ensures Valid() && fresh(proposed) && proposed !in states
      ensures proposed.absorbed == Raws(db[id].rows + parsed)
      ensures Caches(id, db[id].source.count, db[id].source.digest)
    {
      hide Sound, EntryFits, Raws;
      var state := DigestState(id);
      proposed := state.Copy();
      AbsorbRecords(proposed, parsed);
      RawsAppend(db[id].rows, parsed);
    }

    // ----- drains

    /** The transaction of `_append_drain`, then the proposed state as the new cache entry. */
    method CommitAppend(id: SourceId, proposal: Proposal, proposed: HashState, commit: Commit) returns (reply: Reply)
      requires Valid() && !failed && id in db
      requires Proposes(hash, db[id], proposal) && proposed.absorbed == Raws(db[id].rows + proposal.records)
      modifies `db, `digestCache, `states, `failed
      ensures Valid() && OnlyTouched(old(db), db, id)
      ensures Answered(old(db[id]), db[id], Accepted(proposal.Next(old(db[id]))), commit, 0, 0, reply, failed)
      ensures if failed then id !in digestCache else Caches(id, db[id].source.count, db[id].source.digest)
    {
      hide Sound, EntryFits, Raws;
      reply := CommitProposal(id, proposal, commit);
      if commit.Confirmed? {
        WholeEntryFits(hash, db[id]);
        PublishDigest(id, proposal.newCount, proposal.digest, proposed);
      }
    }

    method AppendDrain(id: SourceId, raws: seq<RawRecord>, digest: Option<string>, tail: Option<Tail>, commit: Commit,
                       now: int) returns (reply: Reply)
      requires Valid() && !failed && id in db
      requires 0 < |raws| <= chunkLimit && db[id].source.phase == Receiving
      modifies `db, `digestCache, `states, `failed
      ensures Valid() && OnlyTouched(old(db), db, id)
      ensures Answered(old(db[id]), db[id], CaptureDrain.AppendDrain(hash, old(db[id]), raws, digest, tail), commit, now,
                       retention, reply, failed)
      ensures reply.Stored? ==> Caches(id, db[id].source.count, db[id].source.digest)
      ensures failed ==> id !in digestCache
    {
      hide Sound, EntryFits, Raws, ResolveTail, Quarantined;
      var d := db[id];
      DigestMatches(hash, d);
      var newCount := d.source.count + |raws|;
      if newCount > UINT32_MAX || d.source.start + newCount > d.source.limit {
        return Rejected;
      }
      var parsed := ParseAll(raws);
      var proposed := ProposeDigest(id, parsed);
      if digest.Some? && proposed.HexDigest(hash) != digest.value {
        return Rejected;
      }
      reply := SettleAppend(id, parsed, proposed, tail, commit, now);
    }

    /** `_append_drain` from `_resolve_tail` on. */
    method SettleAppend(id: SourceId, parsed: seq<Record>, proposed: HashState, tail: Option<Tail>, commit: Commit, now: int)
      returns (reply: Reply)
      requires Valid() && !failed && id in db && db[id].source.phase == Receiving
      requires parsed != [] && db[id].source.start + db[id].source.count + |parsed| <= db[id].source.limit
      requires proposed.absorbed == Raws(db[id].rows + parsed)
      modifies `db, `digestCache, `states, `failed
      ensures Valid() && OnlyTouched(old(db), db, id)
      ensures Placed(old(db[id])) &&
        Answered(old(db[id]), db[id],
                 Settle(ResolveTail(old(db[id]), tail, parsed), old(db[id]), parsed, hash(Raws(old(db[id]).rows + parsed))),
                 commit, now, retention, reply, failed)
      ensures reply.Stored? ==> Caches(id, db[id].source.count, db[id].source.digest)
      ensures failed ==> id !in digestCache
    {
      hide Sound, EntryFits, Raws, ResolveTail, Quarantined;
      var d := db[id];
      DigestMatches(hash, d);
      match ResolveTail(d, tail, parsed) {
        case Invalid =>
          return Rejected;
        case Clash(offset, rejected) =>
          ClashBounded(d, tail, parsed);
          BlockReplayConflict(id, offset, rejected, TailMismatch, commit, now);
          return Rejected;
        case Resolved(desired) =>
          SettleProposes(hash, d, parsed, tail, hash(Raws(d.rows + parsed)));
          reply := CommitAppend(id, Settled(d, parsed, proposed.HexDigest(hash), desired), proposed, commit);
      }
    }

    /** `_prefix_digest`. */
    method PrefixDigest(id: SourceId, count: nat) returns (digest: Sha256)
      requires Valid() && id in db && count <= |db[id].rows|
      ensures digest == hash(Raws(db[id].rows[..count]))
    {
      var state := new HashState();
      AbsorbRows(state, db[id].rows[..count]);
      digest := state.HexDigest(hash);
    }

    /** The end of `_replay_or_append` and of `commit_tail`: no record is new, the tail may be. */
    method SettleTail(id: SourceId, tail: Option<Tail>, commit: Commit, now: int) returns (reply: Reply)
      requires Valid() && !failed && id in db && db[id].source.phase == Receiving
      modifies `db, `digestCache, `states, `failed
      ensures Valid() && OnlyTouched(old(db), db, id)
      ensures Placed(old(db[id])) &&
        Answered(old(db[id]), db[id], Settle(ResolveTail(old(db[id]), tail, []), old(db[id]), [], old(db[id]).source.digest),
                 commit, now, retention, reply, failed)
    {
      hide Sound, EntryFits, Raws, ResolveTail, Quarantined;
      var d := db[id];
      DigestMatches(hash, d);
      match ResolveTail(d, tail, []) {
        case Invalid =>
          return Rejected;
        case Clash(offset, rejected) =>
          ClashBounded(d, tail, []);
          BlockReplayConflict(id, offset, rejected, TailMismatch, commit, now);
          return Rejected;
        case Resolved(desired) =>
          assert d.rows + [] == d.rows;
          if desired == d.tail {
            return Stored(d.source.count);
          }
          SettleProposes(hash, d, [], tail, d.source.digest);
          reply := CommitProposal(id, Settled(d, [], d.source.digest, desired), commit);
      }
    }

    method ReplayOrAppend(id: SourceId, expected: nat, raws: seq<RawRecord>, digest: Option<string>, tail: Option<Tail>,
                          commit: Commit, now: int) returns (reply: Reply)
      requires Valid() && !failed && id in db
      requires 0 < |raws| <= chunkLimit && db[id].source.phase == Receiving && expected < db[id].source.count
      modifies `db, `digestCache, `states, `failed
      ensures Valid() && OnlyTouched(old(db), db, id)
      ensures Placed(old(db[id])) &&
        Answered(old(db[id]), db[id], CaptureDrain.ReplayOrAppend(hash, old(db[id]), expected, raws, digest, tail), commit,
                 now, retention, reply, failed)
    {
      hide Sound, EntryFits, Raws, ResolveTail, Quarantined, Join, SameBytes, CaptureDrain.AppendDrain;
      var d := db[id];
      DigestMatches(hash, d);
      var overlap := Min(|raws|, d.source.count - expected);
      var page := RecordPage(d.rows, expected - 1, overlap);
      assert page == d.rows[expected..expected + overlap];
      if !SameBytes(page, raws[..overlap]) {
        RawsParsed(raws);
        BlockReplayConflict(id, expected * AUDIO_RECORD_SIZE, Join(raws), ReplayMismatch, commit, now);
        return Rejected;
      }
      var suffix := raws[overlap..];
      if suffix != [] {
        reply := AppendDrain(id, suffix, digest, tail, commit, now);
        return;
      }
      if digest.Some? {
        var checkpoint := d.source.digest;
        if expected + |raws| != d.source.count {
          checkpoint := PrefixDigest(id, expected + |raws|);
        }
        if digest.value != checkpoint {
          return Rejected;
        }
      }
      reply := SettleTail(id, tail, commit, now);
    }

    method CommitDrain(id: SourceId, q: Request, commit: Commit, now: int) returns (reply: Reply)
      requires Valid()
      modifies `db, `digestCache, `states, `failed
      ensures Valid()
      ensures old(failed) || id !in old(db) ==> db == old(db) && reply == Rejected && failed == old(failed)
      ensures !old(failed) && id in old(db) ==>
        && OnlyTouched(old(db), db, id)
        && Placed(old(db[id]))
        && Answered(old(db[id]), db[id], DecideDrain(hash, chunkLimit, old(db[id]), q), commit, now, retention, reply, failed)
    {
      hide Sound, EntryFits, Raws, ResolveTail, Quarantined, CaptureDrain.AppendDrain, CaptureDrain.ReplayOrAppend;
      if failed || !(0 <= q.expected <= UINT32_MAX) || !Bounded(q.records, chunkLimit)
        || (q.digest.Some? && !IsSha256(q.digest.value)) || id !in db {
        DatabasePlaced(hash, db);
        return Rejected;
      }
      var d := db[id];
      DigestMatches(hash, d);
      var raws: seq<RawRecord> := q.records;
      if !ReceivesLeg(d.source, q.expected, |raws|, q.generation) || q.expected > d.source.count {
        reply := Rejected;
      } else if q.expected < d.source.count {
        reply := ReplayOrAppend(id, q.expected, raws, q.digest, q.tail, commit, now);
      } else {
        reply := AppendDrain(id, raws, q.digest, q.tail, commit, now);
      }
    }

    method CommitTail(id: SourceId, expected: int, generation: int, tail: Option<Tail>, commit: Commit, now: int)
      returns (reply: Reply)
      requires Valid()
      modifies `db, `digestCache, `states, `failed
      ensures Valid()
      ensures old(failed) || id !in old(db) ==> db == old(db) && reply == Rejected && failed == old(failed)
      ensures !old(failed) && id in old(db) ==>
        && OnlyTouched(old(db), db, id)
        && Placed(old(db[id]))
        && Answered(old(db[id]), db[id], DecideTail(old(db[id]), expected, generation, tail), commit, now, retention, reply,
                    failed)
    {
      hide Sound, EntryFits, Raws, ResolveTail, Quarantined;
      DatabasePlaced(hash, db);
      if failed || id !in db {
        return Rejected;
      }
      var s := db[id].source;
      if expected != s.count || !ReceivesCheckpoint(s, expected, generation) || tail.None? {
        return Rejected;
      }
      reply := SettleTail(id, tail, commit, now);
    }

    // ----- the life cycle

    /** A new source is stored or not as its commit comes out. For a source that exists, a failed commit stands for an
      * error before the insertion, which otherwise is refused; the recovery then takes a source that is still as it would
      * have been created for the new one. */
    method CreateSource(id: SourceId, kind: SourceKind, start: int, limit: int, commit: Commit) returns (reply: Reply)
      requires Valid()
      modifies `db, `failed
      ensures Valid()
      ensures var born := Created(hash, kind, start, limit);
        if old(failed) || born.None? then
          db == old(db) && reply == Rejected && failed == old(failed)
        else if id in old(db) then
          && db == old(db)
          && reply == (if commit.Confirmed? then Rejected
                       else if commit.readable && db[id].source == born.value.source then Stored(0)
                       else FailStopped)
          && failed == reply.FailStopped?
        else
          && db == (if commit.TookEffect() then old(db)[id := born.value] else old(db))
          && reply == (if !commit.Inspectable() then FailStopped else if commit.TookEffect() then Stored(0) else RolledBack)
          && failed == reply.FailStopped?
    {
      hide Sound, EntryFits, Raws;
      if failed || !(0 <= start <= UINT64_MAX) || !(0 <= limit <= UINT64_MAX) {
        return Rejected;
      }
      var lifecycle := PhaseAfter(None, Create, Some(Persist));
      if start > limit || limit - start > UINT32_MAX || lifecycle.None? {
        return Rejected;
      }
      var source := Source(kind, lifecycle.value, start, limit, None, None, 0, Leg(start, 0), 0, hash([]));
      var born := Durable(source, [], None, [], None);
      BornSound(hash, kind, start, limit);
      if id in db {
        if commit.Confirmed? {
          return Rejected;
        }
      } else {
        if commit.TookEffect() {
          db := db[id := born];
        }
        if commit.Confirmed? {
          return Stored(0);
        }
      }
      reply := RecoverCreate(id, source, commit.readable);
    }

    /** `_recover_create`. */
    method RecoverCreate(id: SourceId, source: Source, readable: bool) returns (reply: Reply)
      requires Valid() && !failed
      modifies `failed
      ensures Valid() && failed == reply.FailStopped?
      ensures reply ==
        if !readable then FailStopped
        else if id !in db then RolledBack
        else if db[id].source == source then Stored(0)
        else FailStopped
    {
      if !readable {
        failed := true;
        return FailStopped;
      }
      if id in db && db[id].source == source {
        return Stored(0);
      }
      if id !in db {
        return RolledBack;
      }
      failed := true;
      reply := FailStopped;
    }

    method PrepareLeg(id: SourceId, start: int, count: int, commit: Commit) returns (reply: Reply)
      requires Valid()
      modifies `db
      ensures Valid()
      ensures failed || id !in old(db) ==> db == old(db) && reply == Rejected
      ensures !failed && id in old(db) ==>
        OnlyTouched(old(db), db, id) && (db[id], reply) == Notice(old(db[id]), DecidePrepare(old(db[id]), start, count), commit)
    {
      hide Sound, EntryFits, Raws;
      if failed || id !in db {
        return Rejected;
      }
      var d := db[id];
      var s := d.source;
      if !(0 <= start <= UINT64_MAX) || !(0 < count <= UINT32_MAX) || start < s.start || start + count > s.limit {
        return Rejected;
      }
      if start > s.start + s.count {
        return Rejected;
      }
      if s.phase == Prepared && (start != s.start || start + count != s.limit) {
        return Rejected;
      }
      var exact := s.prepared == Some(Leg(start, count));
      var next := PhaseAfter(Some(s.phase), Event.PrepareLeg(true, exact, false),
                             if s.phase == LegPrepared && exact then Some(Idempotent) else None);
      if next.None? {
        return Rejected;
      }
      if s.phase == LegPrepared && exact {
        return Stored(s.count);
      }
      if s.generation + 1 > UINT32_MAX {
        return Rejected;
      }
      PrepareSound(hash, d, start, count);
      if commit.TookEffect() {
        Apply(id, d.(source := s.(phase := next.value, prepared := Some(Leg(start, count)), readBegin := None,
                                    generation := s.generation + 1, leg := Leg(start, count))));
      }
      reply := if commit.Confirmed? then Stored(s.count) else Unconfirmed;
    }

    method RecordReadBegin(id: SourceId, start: int, count: int, commit: Commit) returns (reply: Reply)
      requires Valid()
      modifies `db
      ensures Valid()
      ensures failed || id !in old(db) ==> db == old(db) && reply == Rejected
      ensures !failed && id in old(db) ==>
        OnlyTouched(old(db), db, id) && (db[id], reply) == Notice(old(db[id]), DecideReadBegin(old(db[id]), start, count), commit)
    {
      hide Sound, EntryFits, Raws;
      if failed || id !in db || !(0 <= start <= UINT64_MAX) || !(0 <= count <= UINT32_MAX) {
        return Rejected;
      }
      var d := db[id];
      var s := d.source;
      var leg := Leg(start, count);
      if s.prepared != Some(leg) || leg != s.leg {
        return Rejected;
      }
      var duplicate := s.phase == Receiving && s.readBegin == Some(leg);
      var next := PhaseAfter(Some(s.phase), ReadBegin(true, duplicate), Some(if duplicate then Idempotent else Persist));
      if next.None? {
        return Rejected;
      }
      if duplicate {
        return Stored(s.count);
      }
      PhaseSound(hash, d, Operation.RecordReadBegin(start, count));
      if commit.TookEffect() {
        Apply(id, d.(source := s.(phase := next.value, readBegin := Some(leg))));
      }
      reply := if commit.Confirmed? then Stored(s.count) else Unconfirmed;
    }

    method Interrupt(id: SourceId, commit: Commit) returns (reply: Reply)
      requires Valid()
      modifies `db
      ensures Valid()
      ensures failed || id !in old(db) ==> db == old(db) && reply == Rejected
      ensures !failed && id in old(db) ==>
        OnlyTouched(old(db), db, id) && (db[id], reply) == Notice(old(db[id]), DecideInterrupt(old(db[id])), commit)
    {
      hide Sound, EntryFits, Raws;
      if failed || id !in db {
        return Rejected;
      }
      var d := db[id];
      var verdict := Transition(Some(d.source.phase), Interruption);
      if verdict.action in {Idempotent, InspectOnly} {
        return Stored(d.source.count);
      }
      if verdict.action != Persist || verdict.next.None? {
        return Rejected;
      }
      PhaseSound(hash, d, Operation.Interrupt);
      if commit.TookEffect() {
        Apply(id, d.(source := d.source.(phase := verdict.next.value)));
      }
      reply := if commit.Confirmed? then Stored(d.source.count) else Unconfirmed;
    }

    method SealSource(id: SourceId, generation: int, count: int, digest: string, commit: Commit) returns (reply: Reply)
      requires Valid()
      modifies `db, `failed
      ensures Valid()
      ensures old(failed) || id !in old(db) ==> db == old(db) && reply == Rejected && failed == old(failed)
      ensures !old(failed) && id in old(db) ==>
        && OnlyTouched(old(db), db, id)
        && Answered(old(db[id]), db[id], DecideSeal(old(db[id]), generation, count, digest), commit, 0, retention, reply, failed)
    {
      hide Sound, EntryFits, Raws;
      if failed || id !in db || !(0 <= count <= UINT32_MAX) || !IsSha256(digest) {
        return Rejected;
      }
      var d := db[id];
      var s := d.source;
      if generation != s.generation || count != s.count || digest != s.digest || s.start + count != s.limit {
        return Rejected;
      }
      var next := PhaseAfter(Some(s.phase), DONE, Some(Persist));
      if next.None? || d.tail.Some? {
        return Rejected;
      }
      CheckAuthentic(id);
      PhaseSound(hash, d, Operation.SealSource(generation, count, digest));
      var proposed := s.(phase := next.value);
      if commit.TookEffect() {
        Apply(id, d.(source := proposed));
      }
      if commit.Confirmed? {
        return Stored(count);
      }
      reply := RecoverSeal(id, s, proposed, commit.readable);
    }

    /** The authentication before a seal, which a reachable source always passes. */
    method CheckAuthentic(id: SourceId)
      requires Valid() && id in db
    {
      hide Authentic;
      var fault := Authenticate(hash, Table(db[id].rows), db[id].source.count, db[id].source.digest, chunkLimit);
      SoundIsAuthentic(hash, db[id]);
      assert fault.None?;
    }

    /** `_recover_seal`. */
    method RecoverSeal(id: SourceId, source: Source, proposed: Source, readable: bool) returns (reply: Reply)
      requires Valid() && !failed && id in db && db[id].tail.None?
      requires source != proposed && (db[id].source == source || db[id].source == proposed)
      modifies `failed
      ensures Valid() && failed == !readable
      ensures reply ==
        if !readable then FailStopped else if db[id].source == proposed then Stored(proposed.count) else RolledBack
    {
      if !readable {
        failed := true;
        return FailStopped;
      }
      if db[id].source == proposed && db[id].tail.None? {
        reply := Stored(proposed.count);
      } else if db[id].source == source && db[id].tail.None? {
        reply := RolledBack;
      } else {
        assert false;
      }
    }
  }

  // ----- what an inspection shows

  /** A drain under way: the snapshot it started from and the state it proposed. */
  datatype Proposal = Proposal(source: Source, previous: Option<Tail>, records: seq<Record>, newCount: nat, digest: Sha256,
                             tail: Option<Tail>)
  {
    function Next(before: Durable): Durable {
      before.(source := source.(count := newCount, digest := digest), rows := before.rows + records, tail := tail)
    }
  }

  predicate ProposalOn(before: Durable, proposal: Proposal) {
    && proposal.source == before.source
    && proposal.previous == before.tail
    && before.source.count == |before.rows|
    && proposal.newCount == |before.rows| + |proposal.records|
  }

  function ProposedRows(d: Durable, proposal: Proposal): seq<Record> {
    if proposal.records == [] then [] else RecordPage(d.rows, proposal.source.count - 1, |proposal.records|)
  }

  predicate ShowsProposed(d: Durable, proposal: Proposal) {
    && d.source == proposal.source.(count := proposal.newCount, digest := proposal.digest)
    && SameBytes(ProposedRows(d, proposal), RawOf(proposal.records))
    && d.tail == proposal.tail
  }

  predicate ShowsOld(d: Durable, proposal: Proposal) {
    && d.source == proposal.source
    && ProposedRows(d, proposal) == []
    && d.tail == proposal.previous
  }

  /** The comparison the recovery makes separates the two states an atomic commit can leave. */
  lemma InspectionTells(before: Durable, d: Durable, proposal: Proposal)
    requires ProposalOn(before, proposal)
    requires var next := proposal.Next(before); next != before && (d == before || d == next)
    ensures ShowsProposed(d, proposal) <==> d != before
    ensures ShowsOld(d, proposal) <==> d == before
    ensures ShowsProposed(d, proposal) ==> d.source.count == proposal.newCount && d.source.digest == proposal.digest
    ensures ShowsOld(d, proposal) ==> d.source == proposal.source
  {
    if d != before {
      if proposal.records != [] {
        assert d.rows[|before.rows|..] == proposal.records;
      }
      assert SameBytes(ProposedRows(d, proposal), RawOf(proposal.records));
    }
    if proposal.records == [] {
      assert before.rows + proposal.records == before.rows;
    }
  }

  /** Of every durable state that keeps the rows: what it shows is what is durable, row by row. */
  lemma InspectionProves(before: Durable, d: Durable, proposal: Proposal)
    requires ProposalOn(before, proposal) && Placed(d) && before.rows <= d.rows
    ensures ShowsProposed(d, proposal) <==>
      && d.rows == before.rows + proposal.records
      && d.source == before.source.(count := |d.rows|, digest := proposal.digest)
      && d.tail == proposal.tail
    ensures ShowsOld(d, proposal) <==> d.rows == before.rows && d.source == before.source && d.tail == before.tail
  {
    var n := |before.rows|;
    if |d.rows| == n + |proposal.records| {
      var rows := ProposedRows(d, proposal);
      assert rows == d.rows[n..];
      assert d.rows == before.rows + rows;
      if SameBytes(rows, RawOf(proposal.records)) {
        forall i | 0 <= i < |rows|
          ensures rows[i] == proposal.records[i]
        {
          ParseRaw(rows[i]);
          ParseRaw(proposal.records[i]);
        }
      }
    }
  }

  function RawOf(records: seq<Record>): (raws: seq<RawRecord>)
    ensures |raws| == |records|
  {
    seq(|records|, i requires 0 <= i < |records| =>
      ParseRaw(records[i]);
      records[i].RawBytes())
  }

  /** `read_record_page`. */
  function RecordPage(rows: seq<Record>, after: int, limit: nat): seq<Record>
    requires -1 <= after
  {
    if after + 1 >= |rows| then [] else rows[after + 1..Min(after + 1 + limit, |rows|)]
  }

  // ----- proposals

  /** The proposed state is a sound one that keeps every stored row. */
  predicate Proposes(hash: bytes -> Sha256, d: Durable, proposal: Proposal) {
    && ProposalOn(d, proposal)
    && proposal.Next(d) != d
    && d.rows <= proposal.Next(d).rows
    && Sound(hash, proposal.Next(d))
  }

  predicate OnlyTouched(before: Database, after: Database, id: SourceId) {
    id in before && id in after && after == before[id := after[id]]
  }

  /** What the store did and said is `Answer`. */
  predicate Answered(before: Durable, after: Durable, decision: Decision, commit: Commit, now: int, retention: nat,
                     reply: Reply, failed: bool) {
    && (after, reply) == Answer(before, decision, commit, now, retention)
    && failed == reply.FailStopped?
  }

  lemma QuarantinedSound(hash: bytes -> Sha256, d: Durable, offset: int, rejected: bytes, reason: Reason, now: int,
                         retention: nat)
    requires Sound(hash, d) && d.source.phase == Receiving
    ensures Sound(hash, Quarantined(d, offset, rejected, reason, now, retention))
  {
    hide Raws, Classify, LastConflictOrdinal;
  }

  /** The proposal a settled tail leads to. */
  function Settled(d: Durable, appended: seq<Record>, digest: Sha256, tail: Option<Tail>): Proposal {
    Proposal(d.source, d.tail, appended, d.source.count + |appended|, digest, tail)
  }

  lemma SettledProposes(hash: bytes -> Sha256, d: Durable, appended: seq<Record>, digest: Sha256, tail: Option<Tail>)
    requires d.source.count == |d.rows|
    requires appended == [] ==> tail != d.tail
    ensures Settle(Resolved(tail), d, appended, digest) == Accepted(Settled(d, appended, digest, tail).Next(d))
    ensures Sound(hash, Settled(d, appended, digest, tail).Next(d)) ==> Proposes(hash, d, Settled(d, appended, digest, tail))
  {
    hide Sound;
    assert d.rows <= d.rows + appended;
  }

  lemma SettleProposes(hash: bytes -> Sha256, d: Durable, appended: seq<Record>, incoming: Option<Tail>, digest: Sha256)
    requires Sound(hash, d) && d.source.phase.Receiving?
    requires d.source.start + d.source.count + |appended| <= d.source.limit
    requires digest == hash(Raws(d.rows + appended))
    requires ResolveTail(d, incoming, appended).Resolved?
    requires appended == [] ==> ResolveTail(d, incoming, appended).tail != d.tail
    ensures Proposes(hash, d, Settled(d, appended, digest, ResolveTail(d, incoming, appended).tail))
  {
    hide ResolveTail, Raws, Agrees, Merge, Proposes;
    SettlesTail(hash, d, appended, incoming, digest);
    hide Placed, Settle;
    SettledProposes(hash, d, appended, digest, ResolveTail(d, incoming, appended).tail);
  }

  /** Evidence for a tail conflict is never empty and at most one record. */
  lemma ClashBounded(d: Durable, incoming: Option<Tail>, appended: seq<Record>)
    requires Placed(d) && ResolveTail(d, incoming, appended).Clash?
    ensures 0 < |ResolveTail(d, incoming, appended).rejected| <= AUDIO_RECORD_SIZE
  {
    if appended != [] {
      ParseRaw(appended[0]);
    }
    if incoming.Some? && 0 <= incoming.value.complete < d.source.count + |appended| {
      ParseRaw((d.rows + appended)[incoming.value.complete]);
    }
  }
}
