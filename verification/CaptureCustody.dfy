/** From the writer's arena to the durable rows: what the target took is what the store holds. */
module CaptureCustody {
  import opened Bytes
  import opened CaptureDrain
  import opened CaptureRecords
  import opened DrainLaws
  import opened DrainMerge
  import opened DrainTheorems
  import opened StagedAttempts
  import SourceRuns
  import opened StagingTarget
  import WriterHistory
  import WriterMachine
  import WriterPlans

  /** An accepted chunk is in the stream where it was offered. */
  lemma ChunkStored(hash: bytes -> Sha256, d: Durable, offset: int, payload: bytes, partial: bytes)
    requires Sound(hash, d) && Aligned(payload) && |partial| < AUDIO_RECORD_SIZE
    requires Unbounded(hash, d, offset, payload, partial).Accepted?
    ensures var next := Unbounded(hash, d, offset, payload, partial).next;
      && Sound(hash, next)
      && Grown(d, next)
      && 0 <= offset
      && AUDIO_RECORD_SIZE * offset + |payload| <= |Stream(next)|
      && Stream(next)[AUDIO_RECORD_SIZE * offset..AUDIO_RECORD_SIZE * offset + |payload|] == payload
  {
    hide Raws, DecideDrain, Merge, Agrees, DecideTail;
    var next := Unbounded(hash, d, offset, payload, partial).next;
    if payload == [] {
      TailDecides(hash, d, offset, d.source.generation, FollowingTail(d.source.generation, offset, partial));
    } else {
      ChunkIsMerge(hash, d, offset, payload, partial);
      MergeExtends(Stream(d), AUDIO_RECORD_SIZE * offset, payload + partial);
      AdvancedKeeps(hash, d, next, Stream(next), next.source.count);
      SlicePrefix(Stream(next), AUDIO_RECORD_SIZE * offset, payload, partial);
    }
  }

  lemma SlicePrefix(s: bytes, offset: nat, a: bytes, b: bytes)
    requires offset + |a + b| <= |s| && s[offset..offset + |a + b|] == a + b
    ensures s[offset..offset + |a|] == a
  {
    SliceOfSlice(s, offset, a + b, |a|);
  }

  /**
   * One source through a writer's history. An append that returned was taken by the target and accepted by the store, at
   * the place the leg in force gave it; a leg and a seal that returned were accepted; every other call at most extended
   * the source.
   */
  ghost predicate Follows(hash: bytes -> Sha256, start: Target, calls: seq<WriterHistory.Call>, states: seq<Durable>) {
    && start == PreparedTarget(start.first, start.activeCount, start.arenaStart)
    && |states| == |calls| + 1
    && forall i :: 0 <= i < |calls| ==> Served(hash, AfterAll(start, calls[..i]), calls[i], states[i], states[i + 1])
  }

  ghost predicate Served(hash: bytes -> Sha256, target: Target, call: WriterHistory.Call, d: Durable, next: Durable) {
    && Sound(hash, d)
    && Sound(hash, next)
    && d.source.start == target.first
    && (if call.Append? && call.ok then
          && Takes(target, call)
          && Unbounded(hash, d, Sequence(target, call) - target.first, call.chunk, call.tail) == Accepted(next)
        else if IsLeg(call) && call.ok then
          DecidePrepare(d, call.command.start, call.command.count) == Accepted(next)
        else if IsSeal(call) && call.ok then
          DecideSeal(d, d.source.generation, d.source.count, d.source.digest) == Accepted(next)
        else Grown(d, next))
  }

  predicate IsSeal(call: WriterHistory.Call) {
    call.Operation? && call.command.SealCommand?
  }

  /** As the collector uses the writer: no append returns before a leg is prepared, unless the arena starts where the
    * source does. */
  ghost predicate LegsFirst(start: Target, calls: seq<WriterHistory.Call>) {
    start.arenaStart == start.first ||
    forall i :: 0 <= i < |calls| && calls[i].Append? && calls[i].ok ==> LegPrepared(calls[..i])
  }

  // ----- every call keeps what the source holds

  lemma ServedGrows(hash: bytes -> Sha256, target: Target, call: WriterHistory.Call, d: Durable, next: Durable)
    requires Served(hash, target, call, d, next)
    requires call.Append? ==> Aligned(call.chunk) && |call.tail| < AUDIO_RECORD_SIZE
    ensures Grown(d, next)
  {
    hide Unbounded, DecidePrepare, DecideSeal, Stream, Grown, Takes, Sequence;
    if call.Append? && call.ok {
      ChunkStored(hash, d, Sequence(target, call) - target.first, call.chunk, call.tail);
    } else if IsLeg(call) && call.ok {
      SourceRuns.CallGrows(
        hash, d, SourceRuns.Call.Call(SourceRuns.PrepareLeg(call.command.start, call.command.count), 0, 0, true));
    } else if IsSeal(call) && call.ok {
      SourceRuns.CallGrows(
        hash, d, SourceRuns.Call.Call(SourceRuns.SealSource(d.source.generation, d.source.count, d.source.digest), 0, 0, true));
    }
  }

  lemma FollowsSize(hash: bytes -> Sha256, start: Target, calls: seq<WriterHistory.Call>, states: seq<Durable>)
    requires Follows(hash, start, calls, states)
    ensures |states| == |calls| + 1
  {}

  lemma FollowsAt(hash: bytes -> Sha256, start: Target, calls: seq<WriterHistory.Call>, states: seq<Durable>, i: nat)
    requires Follows(hash, start, calls, states) && i < |calls|
    ensures |states| == |calls| + 1
    ensures Served(hash, AfterAll(start, calls[..i]), calls[i], states[i], states[i + 1])
  {}

  /** The stream holds these bytes from record `base` on. */
  predicate Holds(d: Durable, base: int, delivered: bytes) {
    delivered != [] ==>
      && 0 <= base
      && AUDIO_RECORD_SIZE * base + |delivered| <= |Stream(d)|
      && Stream(d)[AUDIO_RECORD_SIZE * base..AUDIO_RECORD_SIZE * base + |delivered|] == delivered
  }

  lemma GrownHolds(d: Durable, next: Durable, base: int, delivered: bytes)
    requires Holds(d, base, delivered) && Grown(d, next)
    ensures Holds(next, base, delivered)
  {
    hide Stream;
    if delivered != [] {
      var offset := AUDIO_RECORD_SIZE * base;
      assert Stream(next)[..|Stream(d)|] == Stream(d);
      assert Stream(next)[offset..offset + |delivered|] == Stream(d)[offset..offset + |delivered|];
    }
  }

  lemma HoldsMore(d: Durable, base: int, delivered: bytes, chunk: bytes)
    requires Holds(d, base, delivered) && |delivered| % AUDIO_RECORD_SIZE == 0
    requires Holds(d, base + |delivered| / AUDIO_RECORD_SIZE, chunk)
    ensures Holds(d, base, delivered + chunk)
  {
    hide Stream;
    if delivered == [] {
      assert delivered + chunk == chunk;
    } else if chunk == [] {
      assert delivered + chunk == delivered;
    } else {
      var offset, end := AUDIO_RECORD_SIZE * base, AUDIO_RECORD_SIZE * base + |delivered|;
      assert AUDIO_RECORD_SIZE * (base + |delivered| / AUDIO_RECORD_SIZE) == end;
      assert Stream(d)[offset..end + |chunk|] == Stream(d)[offset..end] + Stream(d)[end..end + |chunk|];
    }
  }

  // ----- what was delivered

  /** Before an append that returned, everything returned. */
  lemma ReturnedBefore(calls: seq<WriterHistory.Call>, i: nat)
    requires WriterHistory.StopsAfterFailure(calls) && i < |calls| && calls[i].Append?
    ensures forall j :: 0 <= j < i ==> calls[..i][j].ok
  {
    forall j | 0 <= j < i
      ensures calls[j].ok
    {
      assert !calls[j].ok ==> calls[i].IsClose();
    }
  }

  /** The source holds what an append brought, counted from where the arena starts. */
  lemma AppendHolds(hash: bytes -> Sha256, start: Target, calls: seq<WriterHistory.Call>, states: seq<Durable>, i: nat)
    requires Follows(hash, start, calls, states) && LegsFirst(start, calls) && WriterHistory.StopsAfterFailure(calls)
    requires i < |calls| && calls[i].Append? && calls[i].ok
    requires Aligned(calls[i].chunk) && |calls[i].tail| < AUDIO_RECORD_SIZE && calls[i].offset % AUDIO_RECORD_SIZE == 0
    ensures Holds(states[i + 1], start.arenaStart - start.first + calls[i].offset / AUDIO_RECORD_SIZE, calls[i].chunk)
  {
    hide Unbounded, Stream, AfterAll, Takes, Sequence;
    var target, call := AfterAll(start, calls[..i]), calls[i];
    FollowsAt(hash, start, calls, states, i);
    ReturnedBefore(calls, i);
    StartsStay(start, calls[..i]);
    AppendsKeepPlace(start, calls[..i], call);
    ChunkStored(hash, states[i], Sequence(target, call) - target.first, call.chunk, call.tail);
  }

  /** One call later the source holds what it held, and what the call brought. */
  lemma HoldsOn(hash: bytes -> Sha256, start: Target, calls: seq<WriterHistory.Call>, states: seq<Durable>, i: nat,
                delivered: bytes)
    requires Follows(hash, start, calls, states) && LegsFirst(start, calls) && WriterHistory.StopsAfterFailure(calls)
    requires i < |calls| && Aligned(delivered) && Holds(states[i], start.arenaStart - start.first, delivered)
    requires calls[i].Append? ==>
      calls[i].offset == |delivered| && Aligned(calls[i].chunk) && |calls[i].tail| < AUDIO_RECORD_SIZE
    ensures Holds(states[i + 1], start.arenaStart - start.first,
                  delivered + (if calls[i].Append? && calls[i].ok then calls[i].chunk else []))
  {
    hide Stream, Unbounded, Grown, Follows, LegsFirst, WriterHistory.StopsAfterFailure, Served, Holds, AfterAll;
    var base := start.arenaStart - start.first;
    FollowsAt(hash, start, calls, states, i);
    ServedGrows(hash, AfterAll(start, calls[..i]), calls[i], states[i], states[i + 1]);
    GrownHolds(states[i], states[i + 1], base, delivered);
    if calls[i].Append? && calls[i].ok {
      AppendHolds(hash, start, calls, states, i);
      HoldsMore(states[i + 1], base, delivered, calls[i].chunk);
    } else {
      assert delivered + [] == delivered;
    }
  }

  /** Whatever the writer has delivered is durable, byte for byte, at the place its arena has in the source, however many
    * legs it came in. */
  lemma {:induction false} DeliveredIsDurable(hash: bytes -> Sha256, start: Target, calls: seq<WriterHistory.Call>,
    states: seq<Durable>, n: nat, arena: bytes, published: nat, publishedTail: bytes)
    requires Follows(hash, start, calls, states) && LegsFirst(start, calls) && n <= |calls|
    requires WriterHistory.CallsFit(calls, arena, published, publishedTail) && WriterHistory.StopsAfterFailure(calls)
    ensures Holds(states[n], start.arenaStart - start.first, WriterHistory.Delivered(calls[..n]))
    decreases n
  {
    hide WriterHistory.CallsFit, Stream, Follows, LegsFirst, WriterHistory.StopsAfterFailure, Holds;
    FollowsSize(hash, start, calls, states);
    if n == 0 {
      assert calls[..0] == [];
      NothingHeld(states[0], start.arenaStart - start.first);
    } else {
      DeliveredIsDurable(hash, start, calls, states, n - 1, arena, published, publishedTail);
      WriterHistory.DeliveredIsPrefix(calls, n - 1, arena, published, publishedTail);
      WriterHistory.CallFitsAt(calls, n - 1, arena, published, publishedTail);
      WriterHistory.DeliveredNext(calls[..n - 1], calls[n - 1]);
      assert calls[..n] == calls[..n - 1] + [calls[n - 1]];
      hide WriterHistory.Delivered;
      HoldsOn(hash, start, calls, states, n - 1, WriterHistory.Delivered(calls[..n - 1]));
    }
  }

  lemma NothingHeld(d: Durable, base: int)
    ensures Holds(d, base, [])
  {}

  /** The source is complete, and holds the published bytes from where the arena starts on. */
  predicate Covers(hash: bytes -> Sha256, d: Durable, start: Target, arena: bytes, published: nat) {
    var base := start.arenaStart - start.first;
    && published <= |arena|
    && d.source.start + d.source.count == d.source.limit
    && d.tail.None?
    && d.source.digest == hash(Raws(d.rows))
    && Holds(d, base, arena[..published])
    && (published > 0 && published == AUDIO_RECORD_SIZE * (d.source.limit - start.arenaStart) ==>
          0 <= base <= |d.rows| && Raws(d.rows) == Raws(d.rows[..base]) + arena[..published])
  }

  /**
   * When a seal returns, the source is complete, and its rows are the published bytes from where the arena starts on:
   * all of them if the arena starts with the source and was published to the end.
   */
  lemma SealCoversArena(hash: bytes -> Sha256, start: Target, calls: seq<WriterHistory.Call>, states: seq<Durable>, i: nat,
    arena: bytes, published: nat, publishedTail: bytes, admitted: seq<WriterHistory.Command>, state: WriterMachine.State,
    first: Option<WriterMachine.Error>, raising: bool)
    requires WriterHistory.HistoryOk(calls, arena, published, publishedTail, admitted, state, first, raising)
    requires Follows(hash, start, calls, states) && LegsFirst(start, calls)
    requires i < |calls| && IsSeal(calls[i]) && calls[i].ok
    ensures i < |states| && Covers(hash, states[i], start, arena, published)
  {
    hide Unbounded, WriterHistory.HistoryOk, WriterHistory.CallsFit, Follows, LegsFirst, DecideSeal, Holds, Raws, Stream;
    FollowsAt(hash, start, calls, states, i);
    StartsStay(start, calls[..i]);
    SealedIsComplete(hash, states[i]);
    WriterHistory.FinalizedAfterEverything(calls, i, arena, published, publishedTail, admitted, state, first, raising);
    HistoryFits(calls, arena, published, publishedTail, admitted, state, first, raising);
    DeliveredIsDurable(hash, start, calls, states, i, arena, published, publishedTail);
    if published > 0 && published == AUDIO_RECORD_SIZE * (states[i].source.limit - start.arenaStart) {
      HeldToTheEnd(states[i], start.arenaStart - start.first, arena[..published]);
    }
  }

  lemma HeldToTheEnd(d: Durable, base: int, delivered: bytes)
    requires Stream(d) == Raws(d.rows) && Holds(d, base, delivered) && delivered != []
    requires AUDIO_RECORD_SIZE * base + |delivered| == AUDIO_RECORD_SIZE * |d.rows|
    ensures 0 <= base <= |d.rows| && Raws(d.rows) == Raws(d.rows[..base]) + delivered
  {
    var size := AUDIO_RECORD_SIZE * base;
    RecordPrefix(d, base);
    hide Raws;
    assert Raws(d.rows) == Raws(d.rows)[..size] + Raws(d.rows)[size..size + |delivered|];
  }

  lemma SealedIsComplete(hash: bytes -> Sha256, d: Durable)
    requires Sound(hash, d)
    requires DecideSeal(d, d.source.generation, d.source.count, d.source.digest).Accepted?
    ensures d.source.start + d.source.count == d.source.limit && d.tail.None? && Stream(d) == Raws(d.rows)
    ensures d.source.count == |d.rows| && d.source.digest == hash(Raws(d.rows))
  {
    hide Raws;
    assert Raws(d.rows) + [] == Raws(d.rows);
  }

  lemma HistoryFits(calls: seq<WriterHistory.Call>, arena: bytes, published: nat, publishedTail: bytes,
    admitted: seq<WriterHistory.Command>, state: WriterMachine.State, first: Option<WriterMachine.Error>, raising: bool)
    requires WriterHistory.HistoryOk(calls, arena, published, publishedTail, admitted, state, first, raising)
    ensures WriterHistory.CallsFit(calls, arena, published, publishedTail) && WriterHistory.StopsAfterFailure(calls)
  {}

  /** The target refuses an append that brings nothing, and that is the end of the writer: at most a close follows. */
  lemma EmptyAppendFails(hash: bytes -> Sha256, start: Target, calls: seq<WriterHistory.Call>, states: seq<Durable>, i: nat,
    arena: bytes, published: nat, publishedTail: bytes, admitted: seq<WriterHistory.Command>, state: WriterMachine.State,
    first: Option<WriterMachine.Error>, raising: bool)
    requires WriterHistory.HistoryOk(calls, arena, published, publishedTail, admitted, state, first, raising)
    requires Follows(hash, start, calls, states)
    requires i < |calls| && WriterPlans.BringsNothing(calls[i])
    ensures !calls[i].ok && first.Some?
    ensures |calls| <= i + 2 && (i + 1 < |calls| ==> calls[i + 1].IsClose() && !calls[i + 1].drained)
  {
    FollowsAt(hash, start, calls, states, i);
    assert !calls[i].ok;
    WriterHistory.NothingButClose(calls, i, arena, published, publishedTail, admitted, state, first, raising);
  }
}
