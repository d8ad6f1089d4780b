/** Two histories that the writer can come to, in which something the target or the caller would not expect happens. Both
  * start by preparing the target and beginning to read, and one byte of a record is published. */
module WriterScenarios {
  import opened Bytes
  import opened WriterHistory
  import opened WriterLedger
  import opened WriterMachine
  import opened WriterPlans
  import opened WriterStates

  const ARENA: bytes := [7]

  /** A target that returns from its first calls and then raises. */
  function RaisesAfter(answers: nat, error: Error): nat -> Option<Error> {
    (k: nat) => if k < answers then None else Some(error)
  }

  const STARTED: seq<Call> := [Operation(0, PrepareCommand, false, true), Operation(1, ReadBeginCommand(0), false, true)]
  const SETTLED: seq<Completion> := [Completion(0, None), Completion(1, None)]

  /** The invariant of the writer, at the moment it executes `pending`, with an empty queue behind that command. */
  ghost predicate Executing(
    calls: seq<Call>, admitted: seq<Command>, pending: Pending, published: nat, publishedTail: bytes, state: State,
    closePending: Option<nat>, target: nat -> Option<Error>)
  {
    && HistoryOk(calls, ARENA, published, publishedTail, admitted, state, None, false)
    && QueueOk([], [], Some(pending), ARENA, published, publishedTail, admitted, state, closePending, CloseCalled(calls))
    && FuturesOk(SETTLED, Some(pending), [], [], |admitted|)
    && LedgerOk(calls, admitted, SETTLED, Some(pending), [], None, target)
    && MachineOk(state, calls, false, admitted)
  }

  lemma TwoSettled()
    ensures Settled(SETTLED) == multiset{0, 1}
  {
    assert SETTLED[..1] == [Completion(0, None)] && SETTLED[..1][..0] == [];
    assert Settled(SETTLED[..1]) == multiset{0};
  }

  lemma ThreeIssued()
    ensures Issued(3) == multiset{0, 1, 2}
  {
    assert Issued(1) == multiset{0} && Issued(2) == multiset{0, 1};
  }

  lemma OneInFlight(pending: Pending)
    requires pending.future == 2
    ensures FuturesOk(SETTLED, Some(pending), [], [], 3)
  {
    TwoSettled();
    ThreeIssued();
    hide Settled, Issued;
    assert Waiting([]) == multiset{};
  }

  lemma NothingDelivered(n: nat)
    requires n <= |STARTED|
    ensures Delivered(STARTED[..n]) == [] && DeliveredTail(STARTED[..n]) == []
  {
    if n > 0 {
      NothingDelivered(n - 1);
      assert STARTED[..n][..n - 1] == STARTED[..n - 1];
    }
  }

  lemma OneEvent(state: State, event: Event)
    ensures Final(state, [event]) == Transition(state, event).state
  {
    assert [event][1..] == [];
  }

  lemma TwoEvents(state: State, a: Event, b: Event)
    ensures Final(state, [a, b]) == Transition(Transition(state, a).state, b).state
  {
    hide Transition;
    assert [a, b][1..] == [b];
    OneEvent(Transition(state, a).state, b);
  }

  const BEGUN: seq<Event> := [StartRequested, PrepareSucceeded, ReadBeginRequested, ReadBeginSucceeded]

  lemma ReadingBegins()
    ensures Final(Constructed, BEGUN) == Reading
  {
    hide Final;
    var prepared, begun := [StartRequested, PrepareSucceeded], [ReadBeginRequested, ReadBeginSucceeded];
    assert BEGUN == prepared + begun;
    RunsOn(Constructed, prepared, begun);
    TwoEvents(Constructed, StartRequested, PrepareSucceeded);
    TwoEvents(Prepared, ReadBeginRequested, ReadBeginSucceeded);
  }

  /** Two more events after the beginning of reading. */
  lemma AfterReading(a: Event, b: Event)
    ensures Final(Constructed, BEGUN + [a, b]) == Transition(Transition(Reading, a).state, b).state
  {
    hide Final, Transition;
    ReadingBegins();
    RunsOn(Constructed, BEGUN, [a, b]);
    TwoEvents(Reading, a, b);
  }

  // ----- a close that is never called

  const CLOSING: State := Closing(None, true, true)
  const CLOSE: Pending := Pending(CloseCommand(0, [7]), 2)
  const CLOSE_ADMITTED: seq<Command> := [PrepareCommand, ReadBeginCommand(0), CloseCommand(0, [7])]
  const CLOSE_CALLS: seq<Call> := STARTED + [Append(Some(2), 0, [], [7], false)]

  lemma CloseHistory()
    ensures HistoryOk(STARTED, ARENA, 0, [7], CLOSE_ADMITTED, CLOSING, None, false)
  {
    assert STARTED == STARTED[..2];
    hide Delivered, DeliveredTail;
    NothingDelivered(0);
    NothingDelivered(1);
    NothingDelivered(2);
  }

  lemma CloseLedger(error: Error)
    ensures LedgerOk(STARTED, CLOSE_ADMITTED, SETTLED, Some(CLOSE), [], None, RaisesAfter(2, error))
  {
    assert ReturnedAt(STARTED, 0, 0) && ReturnedAt(STARTED, 1, 1);
  }

  lemma CloseExecuted(error: Error)
    ensures Executed(STARTED, CLOSE_CALLS, CLOSE, true, ARENA, 1, 0, [], RaisesAfter(2, error), Some(error))
  {
    var append := Append(Some(2), 0, [], [7], true);
    assert DrainFor(CLOSE, ARENA, 1).All(0, []) == [append];
    assert CommandPlan(CLOSE, true, ARENA, 1, 0, [])[0] == append;
  }

  lemma StartedReads()
    ensures PrepareReturned(STARTED) && ReadBegun(STARTED) && !FinalReturned(STARTED)
  {
    assert ReadBegunAt(STARTED, 1) && IsPrepare(STARTED[0]);
  }

  lemma CloseMachine()
    ensures MachineOk(CLOSING, STARTED, false, CLOSE_ADMITTED)
  {
    assert CLOSE_ADMITTED[2].CloseCommand?;
  }

  lemma CloseQueued()
    ensures QueueOk([], [], Some(CLOSE), ARENA, 0, [7], CLOSE_ADMITTED, CLOSING, Some(2), CloseCalled(STARTED))
  {}

  lemma CloseExecuting(error: Error)
    ensures Executing(STARTED, CLOSE_ADMITTED, CLOSE, 0, [7], CLOSING, Some(2), RaisesAfter(2, error))
  {
    hide HistoryOk, LedgerOk, FuturesOk, QueueOk, MachineOk;
    CloseHistory();
    CloseLedger(error);
    CloseQueued();
    CloseMachine();
    OneInFlight(CLOSE);
  }

  /**
   * After preparing and beginning to read, a close is requested while one byte is published but not handed over. The
   * target refuses the byte: the worker is done, and has not called the close of the target.
   */
  lemma CloseNeverCalled(error: Error)
    ensures Final(Constructed, BEGUN + [PublishRequested, CloseRequested]) == CLOSING
    ensures Executing(STARTED, CLOSE_ADMITTED, CLOSE, 0, [7], CLOSING, Some(2), RaisesAfter(2, error))
    ensures Drains(CLOSING, CLOSE.command)
    ensures Executed(STARTED, CLOSE_CALLS, CLOSE, true, ARENA, 1, 0, [], RaisesAfter(2, error), Some(error))
    ensures !CloseCalled(CLOSE_CALLS)
  {
    hide Executing, Executed, Final;
    AfterReading(PublishRequested, CloseRequested);
    CloseExecuting(error);
    CloseExecuted(error);
  }

  // ----- an append that brings nothing

  const CHECKPOINT: Pending := Pending(CheckpointCommand(0, []), 2)
  const CHECKPOINT_ADMITTED: seq<Command> := [PrepareCommand, ReadBeginCommand(0), CheckpointCommand(0, [])]
  const IDLED: seq<Call> := STARTED + [Append(None, 0, [], [7], true)]
  const EMPTY_APPEND: Call := Append(Some(2), 0, [], [], false)

  lemma IdledDelivers()
    ensures Delivered(IDLED) == [] && DeliveredTail(IDLED) == [7]
    ensures IDLED[..0] == STARTED[..0] && IDLED[..1] == STARTED[..1] && IDLED[..2] == STARTED
  {
    assert STARTED == STARTED[..2];
    NothingDelivered(2);
    DeliveredNext(STARTED, Append(None, 0, [], [7], true));
  }

  lemma IdledHistory()
    ensures HistoryOk(IDLED, ARENA, 0, [7], CHECKPOINT_ADMITTED, Reading, None, false)
  {
    IdledDelivers();
    hide Delivered, DeliveredTail;
    assert STARTED == STARTED[..2];
    NothingDelivered(0);
    NothingDelivered(1);
    NothingDelivered(2);
  }

  lemma IdledLedger(error: Error)
    ensures LedgerOk(IDLED, CHECKPOINT_ADMITTED, SETTLED, Some(CHECKPOINT), [], None, RaisesAfter(3, error))
  {
    IdledDelivers();
    hide Delivered, DeliveredTail;
    assert STARTED == STARTED[..2];
    NothingDelivered(2);
    StartedReads();
    assert ReturnedAt(IDLED, 0, 0) && ReturnedAt(IDLED, 1, 1);
  }

  lemma IdledMachine()
    ensures MachineOk(Reading, IDLED, false, CHECKPOINT_ADMITTED)
  {
    var append := Append(None, 0, [], [7], true);
    StartedReads();
    ReadBegunNext(STARTED, append);
    ReturnedNext(STARTED, append);
  }

  lemma IdledQueued()
    ensures QueueOk([], [], Some(CHECKPOINT), ARENA, 0, [7], CHECKPOINT_ADMITTED, Reading, None, CloseCalled(IDLED))
  {}

  lemma IdledTurn(error: Error)
    ensures IdleTurn(STARTED, IDLED, ARENA, 1, 0, [], 0, [7], RaisesAfter(3, error))
  {
    var drain := Drain(ARENA, 1, None, 0, [7]);
    var append := Append(None, 0, [], [7], true);
    assert drain.Next(0, []) == [append];
    AnsweredOne(append, RaisesAfter(3, error), 2);
    assert DrainMade(STARTED, IDLED, drain, 0, [], RaisesAfter(3, error), None);
  }

  lemma EmptyExecuted(error: Error)
    ensures Executed(IDLED, IDLED + [EMPTY_APPEND], CHECKPOINT, true, ARENA, 1, 0, [7], RaisesAfter(3, error), Some(error))
  {
    var append := Append(Some(2), 0, [], [], true);
    assert DrainFor(CHECKPOINT, ARENA, 1).All(0, [7]) == [append];
    assert CommandPlan(CHECKPOINT, true, ARENA, 1, 0, [7])[0] == append;
  }

  lemma CheckpointExecuting(error: Error)
    ensures Executing(IDLED, CHECKPOINT_ADMITTED, CHECKPOINT, 0, [7], Reading, None, RaisesAfter(3, error))
  {
    hide HistoryOk, LedgerOk, FuturesOk, QueueOk, MachineOk;
    IdledHistory();
    IdledLedger(error);
    IdledQueued();
    IdledMachine();
    OneInFlight(CHECKPOINT);
  }

  /**
   * While reading, a checkpoint is requested before anything is published; then one byte is, and an idle turn hands it
   * over. Executing the checkpoint appends neither bytes nor a tail, and a target that refuses such an append fails the
   * writer.
   */
  lemma EmptyAppendHappens(error: Error)
    ensures Final(Constructed, BEGUN + [CheckpointRequested, PublishRequested]) == Reading
    ensures IdleTurn(STARTED, IDLED, ARENA, 1, 0, [], 0, [7], RaisesAfter(3, error))
    ensures Executing(IDLED, CHECKPOINT_ADMITTED, CHECKPOINT, 0, [7], Reading, None, RaisesAfter(3, error))
    ensures Delivered(IDLED) == [] && DeliveredTail(IDLED) == [7] && Drains(Reading, CHECKPOINT.command)
    ensures Executed(IDLED, IDLED + [EMPTY_APPEND], CHECKPOINT, true, ARENA, 1, 0, [7], RaisesAfter(3, error), Some(error))
    ensures BringsNothing(EMPTY_APPEND)
  {
    hide Executing, Executed, IdleTurn, Final, Delivered, DeliveredTail;
    AfterReading(CheckpointRequested, PublishRequested);
    IdledDelivers();
    IdledTurn(error);
    CheckpointExecuting(error);
    EmptyExecuted(error);
  }
}
