/** What the writer has asked of its target and of its futures so far, and what must hold of that history. */
module WriterHistory {
  import opened Bytes
  import opened WriterMachine

  const RECORD_SIZE: nat := 444

  datatype Command =
    | PrepareCommand
    | PrepareLegCommand(start: nat, count: nat)
    | ReadBeginCommand(notice: nat)
    | CheckpointCommand(highWater: nat, tail: bytes)
    | InterruptCommand(highWater: nat, tail: bytes)
    | SealCommand(highWater: nat, notice: nat, tail: bytes)
    | PublishPrefixCommand(highWater: nat, tail: bytes)
    | CloseCommand(highWater: nat, tail: bytes)
  {
    /** The command carries the byte frontier published when it was admitted. */
    predicate HasFrontier() {
      CheckpointCommand? || InterruptCommand? || SealCommand? || PublishPrefixCommand? || CloseCommand?
    }

    predicate Finalizes() {
      SealCommand? || PublishPrefixCommand?
    }
  }

  datatype Pending = Pending(command: Command, future: nat)

  /** One call of the target. An `append_chunk` is made for the command with future `cause`, or on an idle turn; the
    * operation of the command with this future comes with whether the writer drained the arena for it just before.
    * `ok` is whether the call returned. */
  datatype Call =
    | Append(cause: Option<nat>, offset: nat, chunk: bytes, tail: bytes, ok: bool)
    | Operation(future: nat, command: Command, drained: bool, ok: bool)
  {
    predicate IsClose() {
      Operation? && command.CloseCommand?
    }
  }

  /** Bytes the target took, in the order it took them. */
  function Delivered(calls: seq<Call>): bytes
    decreases |calls|
  {
    if calls == [] then []
    else
      var last := calls[|calls| - 1];
      Delivered(calls[..|calls| - 1]) + (if last.Append? && last.ok then last.chunk else [])
  }

  /** The partial record the target was last told of. */
  function DeliveredTail(calls: seq<Call>): bytes
    decreases |calls|
  {
    if calls == [] then []
    else
      var last := calls[|calls| - 1];
      if last.Append? && last.ok then last.tail else DeliveredTail(calls[..|calls| - 1])
  }

  predicate SliceAt(arena: bytes, offset: nat, slice: bytes) {
    offset + |slice| <= |arena| && arena[offset..offset + |slice|] == slice
  }

  /** A record-aligned offset with the partial record that follows it in the arena. */
  predicate Frontier(arena: bytes, highWater: nat, tail: bytes) {
    highWater % RECORD_SIZE == 0 && |tail| < RECORD_SIZE && SliceAt(arena, highWater, tail)
  }

  /** Everything up to a frontier has been handed over: at least its bytes and, when nothing more, exactly its tail. */
  predicate Reached(calls: seq<Call>, highWater: nat, tail: bytes) {
    |Delivered(calls)| >= highWater && (|Delivered(calls)| == highWater ==> DeliveredTail(calls) == tail)
  }

  /** A READ_BEGIN has returned, and no leg has been prepared since. */
  ghost predicate ReadBegun(calls: seq<Call>) {
    exists i :: 0 <= i < |calls| && ReadBegunAt(calls, i)
  }

  ghost predicate ReadBegunAt(calls: seq<Call>, i: nat)
    requires i < |calls|
  {
    && calls[i].Operation? && calls[i].command.ReadBeginCommand? && calls[i].ok
    && forall j :: i < j < |calls| && calls[j].Operation? && calls[j].ok ==> !calls[j].command.PrepareLegCommand?
  }

  /** A call against the history before it. */
  predicate CallFits(before: seq<Call>, call: Call, arena: bytes, published: nat, publishedTail: bytes) {
    match call
    case Append(_, offset, chunk, tail, _) =>
      && offset == |Delivered(before)|
      && offset + |chunk| <= published
      && SliceAt(arena, offset, chunk) && |chunk| % RECORD_SIZE == 0
      && SliceAt(arena, offset + |chunk|, tail) && |tail| < RECORD_SIZE
    case Operation(_, command, drained, _) =>
      && (command.HasFrontier() && !command.CloseCommand? ==> drained)
      && (command.HasFrontier() && drained ==> Reached(before, command.highWater, command.tail))
      && ((command.Finalizes() || command.CloseCommand?) && drained ==>
            published <= |arena| && Delivered(before) == arena[..published] && DeliveredTail(before) == publishedTail)
  }

  ghost predicate CallsFit(calls: seq<Call>, arena: bytes, published: nat, publishedTail: bytes) {
    forall i :: 0 <= i < |calls| ==> CallFits(calls[..i], calls[i], arena, published, publishedTail)
  }

  ghost predicate Broken(calls: seq<Call>) {
    exists i :: 0 <= i < |calls| && !calls[i].ok
  }

  /** After a call has raised, the only call ever made is one close that does not drain; nothing follows a close. */
  ghost predicate StopsAfterFailure(calls: seq<Call>) {
    && (forall i :: 0 <= i < |calls| - 1 ==> !calls[i].IsClose())
    && (forall i, j :: 0 <= i < j < |calls| && !calls[i].ok ==> calls[j].IsClose() && !calls[j].drained)
  }

  /** Finalizing operations are only called once publication is closed, and each call runs an admitted command. */
  ghost predicate CallsAdmitted(calls: seq<Call>, admitted: seq<Command>) {
    forall i :: 0 <= i < |calls| && calls[i].Operation? ==> calls[i].command in admitted
  }

  ghost predicate AdmissionsFit(admitted: seq<Command>, state: State) {
    && (forall i, j :: 0 <= i < j < |admitted| ==>
          && !(admitted[i].PrepareCommand? && admitted[j].PrepareCommand?)
          && !(admitted[i].Finalizes() && admitted[j].Finalizes())
          && !(admitted[i].CloseCommand? && admitted[j].CloseCommand?))
    && (forall command :: command in admitted ==>
          && (command.PrepareCommand? ==> Stage(state) >= 1)
          && (command.Finalizes() ==> Stage(state) >= 3)
          && (command.CloseCommand? ==> Stage(state) >= 6))
    && Remembers(state, PrepareCommand in admitted)
    && ((exists command :: command in admitted && !command.CloseCommand?) ==> PrepareCommand in admitted)
  }

  /** A waiting command against what is published. */
  predicate CommandFits(command: Command, arena: bytes, published: nat, publishedTail: bytes, state: State) {
    command.HasFrontier() ==>
      && Frontier(arena, command.highWater, command.tail) && command.highWater <= published
      && (command.highWater == published ==> command.tail <= publishedTail)
      && (command.Finalizes() || command.CloseCommand? ==>
            Stage(state) >= 3 && command.highWater == published && command.tail == publishedTail)
  }

  ghost predicate QueueFits(
    queue: seq<Pending>, arena: bytes, published: nat, publishedTail: bytes, state: State, admitted: seq<Command>)
  {
    forall i :: 0 <= i < |queue| ==>
      CommandFits(queue[i].command, arena, published, publishedTail, state) && queue[i].command in admitted
  }

  /** A close waits behind everything else, and exactly while the machine is closing. */
  ghost predicate CloseWaitsLast(queue: seq<Pending>, state: State, closeRunning: bool) {
    && (forall i :: 0 <= i < |queue| - 1 ==> !queue[i].command.CloseCommand?)
    && (closeRunning ==> queue == [] && Stage(state) >= 6)
    && (state.Closed? ==> queue == [])
    && (state.Closing? && !closeRunning ==> queue != [] && queue[|queue| - 1].command.CloseCommand?)
    && (Stage(state) < 6 && queue != [] ==> !queue[|queue| - 1].command.CloseCommand?)
  }

  // ----- futures

  /** A settled future: with the result of its operation, or with the error of a failed writer. */
  datatype Completion = Completion(future: nat, error: Option<Error>)

  ghost function Settled(completions: seq<Completion>): multiset<nat>
    decreases |completions|
  {
    if completions == [] then multiset{}
    else Settled(completions[..|completions| - 1]) + multiset{completions[|completions| - 1].future}
  }

  ghost function Waiting(queue: seq<Pending>): multiset<nat> {
    if queue == [] then multiset{} else multiset{queue[0].future} + Waiting(queue[1..])
  }

  ghost function Issued(count: nat): multiset<nat> {
    if count == 0 then multiset{} else Issued(count - 1) + multiset{count - 1}
  }

  /** Every future issued is settled once, and no other. */
  ghost predicate SettledOnce(completions: seq<Completion>, nextFuture: nat) {
    forall future: nat :: Settled(completions)[future] == if future < nextFuture then 1 else 0
  }

  lemma {:induction false} IssuedOnce(count: nat, future: nat)
    ensures Issued(count)[future] == if future < count then 1 else 0
  {
    if count > 0 {
      IssuedOnce(count - 1, future);
    }
  }

  lemma {:induction false} WaitingAppend(a: seq<Pending>, b: seq<Pending>)
    ensures Waiting(a + b) == Waiting(a) + Waiting(b)
  {
    if a == [] {
      assert a + b == b;
    } else {
      assert (a + b)[0] == a[0] && (a + b)[1..] == a[1..] + b;
      WaitingAppend(a[1..], b);
    }
  }

  // ----- the invariant, as a predicate of the values it relates

  /** What was called, against what is published, admitted and recorded as failed. */
  ghost predicate HistoryOk(
    calls: seq<Call>, arena: bytes, published: nat, publishedTail: bytes,
    admitted: seq<Command>, state: State, first: Option<Error>, raising: bool)
  {
    && CallsFit(calls, arena, published, publishedTail)
    && StopsAfterFailure(calls)
    && CallsAdmitted(calls, admitted)
    && (Broken(calls) <==> first.Some?)
    && (FailureOf(state).Some? ==> FailureOf(state) == first)
    && (first.Some? && !raising ==> FailureOf(state).Some?)
    && (raising ==> first.Some?)
  }

  predicate CloseCalled(calls: seq<Call>) {
    calls != [] && calls[|calls| - 1].IsClose()
  }

  predicate IsRunning(inflight: Option<Pending>) {
    inflight.Some? && inflight.value.command.CloseCommand?
  }

  ghost predicate QueueOk(
    failing: seq<Pending>, commands: seq<Pending>, inflight: Option<Pending>,
    arena: bytes, published: nat, publishedTail: bytes, admitted: seq<Command>, state: State,
    closePending: Option<nat>, closeCalled: bool)
  {
    && AdmissionsFit(admitted, state)
    && QueueFits(failing + commands, arena, published, publishedTail, state, admitted)
    && (inflight.Some? ==>
          && CommandFits(inflight.value.command, arena, published, publishedTail, state)
          && inflight.value.command in admitted)
    && CloseWaitsLast(failing + commands, state, IsRunning(inflight))
    && (failing != [] ==> FailureOf(state).Some?)
    && (Stage(state) >= 6 ==> closePending.Some?)
    && (closeCalled ==> IsRunning(inflight) || state.Closed?)
  }

  ghost function Running(inflight: Option<Pending>): multiset<nat> {
    if inflight.Some? then multiset{inflight.value.future} else multiset{}
  }

  /** Every future ever issued is settled, in flight, or still waiting: exactly one of these, exactly once. */
  ghost predicate FuturesOk(
    completions: seq<Completion>, inflight: Option<Pending>, failing: seq<Pending>, commands: seq<Pending>, nextFuture: nat)
  {
    Settled(completions) + Running(inflight) + Waiting(failing) + Waiting(commands) == Issued(nextFuture)
  }

  // ----- one more call

  lemma DeliveredNext(calls: seq<Call>, call: Call)
    ensures Delivered(calls + [call]) == Delivered(calls) + (if call.Append? && call.ok then call.chunk else [])
    ensures DeliveredTail(calls + [call]) == if call.Append? && call.ok then call.tail else DeliveredTail(calls)
  {
    assert (calls + [call])[..|calls|] == calls;
  }

  lemma CallsFitNext(calls: seq<Call>, call: Call, arena: bytes, published: nat, publishedTail: bytes)
    requires CallsFit(calls, arena, published, publishedTail)
    requires CallFits(calls, call, arena, published, publishedTail)
    ensures CallsFit(calls + [call], arena, published, publishedTail)
  {
    hide CallFits;
    var all := calls + [call];
    forall i | 0 <= i < |all|
      ensures CallFits(all[..i], all[i], arena, published, publishedTail)
    {
      if i < |calls| {
        assert all[..i] == calls[..i] && all[i] == calls[i];
      } else {
        assert all[..i] == calls;
      }
    }
  }

  /** Publishing more disturbs no call that was made, as long as none has finalized or drained for a close. */
  lemma CallsFitLater(
    calls: seq<Call>, arena: bytes, published: nat, publishedTail: bytes, newPublished: nat, newTail: bytes)
    requires CallsFit(calls, arena, published, publishedTail) && published <= newPublished
    requires forall i :: 0 <= i < |calls| && calls[i].Operation? ==>
      !calls[i].command.Finalizes() && !calls[i].command.CloseCommand?
    ensures CallsFit(calls, arena, newPublished, newTail)
  {
    hide Delivered, DeliveredTail;
    forall i | 0 <= i < |calls|
      ensures CallFits(calls[..i], calls[i], arena, newPublished, newTail)
    {
      assert CallFits(calls[..i], calls[i], arena, published, publishedTail);
    }
  }

  // ----- what a whole history says

  function AppendedChunks(calls: seq<Call>): seq<bytes>
    decreases |calls|
  {
    if calls == [] then []
    else
      var last := calls[|calls| - 1];
      AppendedChunks(calls[..|calls| - 1]) + (if last.Append? && last.ok && last.chunk != [] then [last.chunk] else [])
  }

  /** The nonempty chunks, joined, are what was delivered: they tile it, each once and in order. */
  lemma {:induction false} ChunksTile(calls: seq<Call>)
    ensures Join(AppendedChunks(calls)) == Delivered(calls)
    decreases |calls|
  {
    if calls != [] {
      var n := |calls| - 1;
      var last := calls[n];
      ChunksTile(calls[..n]);
      if last.Append? && last.ok && last.chunk != [] {
        JoinAppend(AppendedChunks(calls[..n]), [last.chunk]);
        assert Join([last.chunk]) == last.chunk;
      } else {
        assert AppendedChunks(calls[..n]) + [] == AppendedChunks(calls[..n]);
      }
    }
  }

  /** In a fitting history an append starts exactly where the delivered bytes end. */
  lemma {:induction false} AppendsAreContiguous(calls: seq<Call>, i: nat, arena: bytes, published: nat, publishedTail: bytes)
    requires CallsFit(calls, arena, published, publishedTail) && i < |calls| && calls[i].Append?
    ensures Delivered(calls[..i]) == arena[..calls[i].offset]
    ensures calls[i].offset % 444 == 0 && |calls[i].chunk| % 444 == 0 && |calls[i].tail| < 444
    decreases i
  {
    DeliveredIsPrefix(calls, i, arena, published, publishedTail);
    assert CallFits(calls[..i], calls[i], arena, published, publishedTail);
  }

  lemma CallFitsAt(calls: seq<Call>, i: nat, arena: bytes, published: nat, publishedTail: bytes)
    requires CallsFit(calls, arena, published, publishedTail) && i < |calls|
    ensures CallFits(calls[..i], calls[i], arena, published, publishedTail)
  {}

  lemma DeliveredStaysPrefix(before: seq<Call>, call: Call, arena: bytes, published: nat, publishedTail: bytes)
    requires CallFits(before, call, arena, published, publishedTail)
    requires |Delivered(before)| <= |arena| && Delivered(before) == arena[..|Delivered(before)|]
    requires |Delivered(before)| % RECORD_SIZE == 0
    ensures var now := Delivered(before + [call]);
      |now| <= |arena| && now == arena[..|now|] && |now| % RECORD_SIZE == 0
  {
    hide Delivered, DeliveredTail, Reached;
    DeliveredNext(before, call);
    if call.Append? && call.ok {
      assert arena[..call.offset] + arena[call.offset..call.offset + |call.chunk|] == arena[..call.offset + |call.chunk|];
    } else {
      assert Delivered(before) + [] == Delivered(before);
    }
  }

  lemma {:induction false} DeliveredIsPrefix(calls: seq<Call>, n: nat, arena: bytes, published: nat, publishedTail: bytes)
    requires CallsFit(calls, arena, published, publishedTail) && n <= |calls|
    ensures |Delivered(calls[..n])| <= |arena| && Delivered(calls[..n]) == arena[..|Delivered(calls[..n])|]
    ensures |Delivered(calls[..n])| % RECORD_SIZE == 0
    decreases n
  {
    if n > 0 {
      hide Delivered, CallsFit, CallFits;
      DeliveredIsPrefix(calls, n - 1, arena, published, publishedTail);
      CallFitsAt(calls, n - 1, arena, published, publishedTail);
      DeliveredStaysPrefix(calls[..n - 1], calls[n - 1], arena, published, publishedTail);
      assert calls[..n] == calls[..n - 1] + [calls[n - 1]];
    }
  }

  /** Sealing, publishing a prefix, or a draining close came after every published byte and the published tail had been
    * handed over, and nothing was published after that. */
  lemma FinalizedAfterEverything(
    calls: seq<Call>, i: nat, arena: bytes, published: nat, publishedTail: bytes,
    admitted: seq<Command>, state: State, first: Option<Error>, raising: bool)
    requires HistoryOk(calls, arena, published, publishedTail, admitted, state, first, raising)
    requires i < |calls| && calls[i].Operation?
    requires calls[i].command.Finalizes() || (calls[i].command.CloseCommand? && calls[i].drained)
    ensures published <= |arena| && Delivered(calls[..i]) == arena[..published]
    ensures DeliveredTail(calls[..i]) == publishedTail
    ensures Join(AppendedChunks(calls[..i])) == arena[..published]
  {
    assert CallFits(calls[..i], calls[i], arena, published, publishedTail);
    ChunksTile(calls[..i]);
  }

  /** A checkpoint or an interruption came after everything published when it was admitted had been handed over, and if
    * nothing more had, with exactly the tail published then. */
  lemma CheckpointedAfterItsFrontier(
    calls: seq<Call>, i: nat, arena: bytes, published: nat, publishedTail: bytes,
    admitted: seq<Command>, state: State, first: Option<Error>, raising: bool)
    requires HistoryOk(calls, arena, published, publishedTail, admitted, state, first, raising)
    requires i < |calls| && calls[i].Operation?
    requires calls[i].command.CheckpointCommand? || calls[i].command.InterruptCommand?
    ensures calls[i].command.highWater <= |Delivered(calls[..i])| <= |arena|
    ensures Delivered(calls[..i]) == arena[..|Delivered(calls[..i])|]
    ensures |Delivered(calls[..i])| == calls[i].command.highWater ==> DeliveredTail(calls[..i]) == calls[i].command.tail
  {
    assert CallFits(calls[..i], calls[i], arena, published, publishedTail);
    DeliveredIsPrefix(calls, i, arena, published, publishedTail);
  }

  /** Once a target call has raised, at most one more is made, and it is a close that does not drain. */
  lemma NothingButClose(
    calls: seq<Call>, i: nat, arena: bytes, published: nat, publishedTail: bytes,
    admitted: seq<Command>, state: State, first: Option<Error>, raising: bool)
    requires HistoryOk(calls, arena, published, publishedTail, admitted, state, first, raising)
    requires i < |calls| && !calls[i].ok
    ensures |calls| <= i + 2
    ensures i + 1 < |calls| ==> calls[i + 1].IsClose() && !calls[i + 1].drained
  {
    if i + 1 < |calls| {
      assert calls[i + 1].IsClose();
    }
  }
}
