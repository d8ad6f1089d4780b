/** The single-owner writer: a producer publishes byte frontiers and queues commands while one worker thread drains the
  * arena into the target. Each lock section is one atomic step; wherever the worker is outside the lock, `Interfere`
  * lets the producer take any number of steps. */
module AttemptWriter {
  import opened Bytes
  import opened WriterMachine
  import opened WriterHistory
  import opened WriterLedger
  import opened WriterPlans
  import opened WriterStates

  datatype Request =
    | Start
    | Leg(start: nat, count: nat)
    | ReadBegin(notice: nat)
    | Checkpoint
    | Interrupt
    | Seal(notice: nat)
    | PublishPrefix
    | Close
  {
    function Event(): (event: Event)
      ensures !event.IsResult()
    {
      match this
      case Start => StartRequested
      case Leg(_, _) => LegRequested
      case ReadBegin(_) => ReadBeginRequested
      case Checkpoint => CheckpointRequested
      case Interrupt => CheckpointRequested
      case Seal(_) => FinalizeRequested
      case PublishPrefix => FinalizeRequested
      case Close => CloseRequested
    }

    /** The command factory, applied to the frontier published at admission. */
    function Command(highWater: nat, tail: bytes): Command {
      match this
      case Start => PrepareCommand
      case Leg(start, count) => PrepareLegCommand(start, count)
      case ReadBegin(notice) => ReadBeginCommand(notice)
      case Checkpoint => CheckpointCommand(highWater, tail)
      case Interrupt => InterruptCommand(highWater, tail)
      case Seal(notice) => SealCommand(highWater, notice, tail)
      case PublishPrefix => PublishPrefixCommand(highWater, tail)
      case Close => CloseCommand(highWater, tail)
    }
  }

  /** Which request a command stands for: the frontier it carries, if any, is the one given. */
  predicate AsksFor(command: Command, request: Request, published: nat, publishedTail: bytes) {
    match command
    case PrepareCommand => request == Start
    case PrepareLegCommand(start, count) => request == Leg(start, count)
    case ReadBeginCommand(notice) => request == ReadBegin(notice)
    case CheckpointCommand(highWater, tail) => request == Checkpoint && highWater == published && tail == publishedTail
    case InterruptCommand(highWater, tail) => request == Interrupt && highWater == published && tail == publishedTail
    case SealCommand(highWater, notice, tail) =>
      request == Seal(notice) && highWater == published && tail == publishedTail
    case PublishPrefixCommand(highWater, tail) =>
      request == PublishPrefix && highWater == published && tail == publishedTail
    case CloseCommand(highWater, tail) => request == Close && highWater == published && tail == publishedTail
  }

  /** When a request is admitted: a close once, a start once, a finalization once after preparing, a leg or READ_BEGIN
    * between the two, and a checkpoint or interruption only while reading is under way. */
  ghost predicate Welcome(request: Request, told: seq<Call>, admitted: seq<Command>, failed: bool) {
    && !CloseAsked(admitted)
    && (request.Close? || !failed)
    && match request
       case Close => true
       case Start => !StartAsked(admitted)
       case Checkpoint => StartAsked(admitted) && PrepareReturned(told) && ReadingUnderWay(told, admitted, failed)
       case Interrupt => StartAsked(admitted) && PrepareReturned(told) && ReadingUnderWay(told, admitted, failed)
       case _ => StartAsked(admitted) && PrepareReturned(told) && !FinalAsked(admitted)
  }

  lemma CommandAsks(request: Request, published: nat, publishedTail: bytes)
    ensures AsksFor(request.Command(published, publishedTail), request, published, publishedTail)
  {}

  lemma VerdictWelcomes(request: Request, told: seq<Call>, admitted: seq<Command>, failed: bool)
    requires FinalReturned(told) ==> FinalAsked(admitted)
    ensures Verdict(request.Event(), told, admitted, failed) == WriterMachine.Admit <==>
      Welcome(request, told, admitted, failed)
  {
    hide FinalReturned, FinalAsked, PrepareReturned, CloseAsked, StartAsked;
  }

  datatype AdmitOutcome =
    | Queued(future: nat)
    | Reused(future: nat)
    | Ignored
    | Refused(kind: RejectionKind)
    | QueueFull

  datatype PublishOutcome = Advanced | NoOp | InvalidArgument | TailConflict | Rejected(kind: RejectionKind)

  /** What `publish` answers: a valid frontier is taken exactly if publication is open and it is further than the one
    * published, or as far with a longer tail. */
  function PublishAnswer(
    arena: bytes, published: nat, publishedTail: bytes, directive: Directive, highWater: int, tail: bytes): PublishOutcome
  {
    if !(0 <= highWater <= |arena| && Frontier(arena, highWater, tail)) then InvalidArgument
    else if directive.Reject? then Rejected(directive.kind)
    else if highWater < published || (highWater == published && tail <= publishedTail) then NoOp
    else if highWater == published && !(publishedTail <= tail) then TailConflict
    else Advanced
  }

  /** The state producer and worker share. */
  datatype Shared = Shared(
    published: nat, publishedTail: bytes, state: State, commands: seq<Pending>, admitted: seq<Command>)

  /** What the producer's steps may do to it. */
  ghost predicate GrewFrom(before: Shared, after: Shared) {
    && before.published <= after.published
    && (before.published == after.published ==> before.publishedTail <= after.publishedTail)
    && (Stage(before.state) >= 3 ==>
          before.published == after.published && before.publishedTail == after.publishedTail)
    && before.commands <= after.commands
    && before.admitted <= after.admitted
    && Stage(before.state) <= Stage(after.state)
    && FailureOf(before.state) == FailureOf(after.state)
    && (Stage(before.state) >= 6 ==>
          before.state == after.state && before.commands == after.commands && before.admitted == after.admitted)
    && (after.state.Closed? ==> before.state.Closed?)
  }

  /** Admissions are never taken back, and none is added once the writer is closing; closing is never undone. */
  ghost predicate GrewOnly(stateBefore: State, admittedBefore: seq<Command>, state: State, admitted: seq<Command>) {
    && admittedBefore <= admitted
    && (Stage(stateBefore) >= 6 ==> admittedBefore == admitted && Stage(state) >= 6)
  }

  lemma StandsStill(a: Shared)
    ensures GrewFrom(a, a)
  {}

  lemma GrewOn(a: Shared, b: Shared, c: Shared)
    requires GrewFrom(a, b) && GrewFrom(b, c)
    ensures GrewFrom(a, c)
  {}

  /** What `_admit` makes of the machine's answer. */
  predicate AdmitAnswers(
    directive: Directive, room: bool, nextFuture: nat, closePending: Option<nat>, outcome: AdmitOutcome)
  {
    match directive
    case Admit => outcome == if room then Queued(nextFuture) else QueueFull
    case ReuseClose => closePending.Some? && outcome == Reused(closePending.value)
    case Ignore => outcome == Ignored
    case Reject(kind) => outcome == Refused(kind)
  }

  /** A close, requested in this state: it remembers a failure and whether a start was admitted, and is to drain if
    * finalizing was asked for or reading was under way. */
  ghost predicate ClosesBy(state: State, told: seq<Call>, admitted: seq<Command>, next: State) {
    && next.Closing?
    && next.failure == FailureOf(state)
    && next.startAdmitted == StartAsked(admitted)
    && (next.drain <==> WillDrain(told, admitted, FailureOf(state).Some?))
  }

  // ----- how admissions and results move the machine

  /** Where an admission takes the machine. */
  lemma AdmitMoves(state: State, request: Request)
    requires Transition(state, request.Event()).directive == Admit
    ensures
      var next := Transition(state, request.Event()).state;
      && Stage(state) <= Stage(next) && FailureOf(next) == FailureOf(state)
      && Stage(state) < 6 && !next.Closed?
      && (request.Close? <==> next.Closing?) && (request.Close? <==> Stage(next) >= 6)
      && (request.Start? ==> Stage(state) == 0 && Stage(next) == 1)
      && (request.Seal? || request.PublishPrefix? ==> Stage(state) == 2 && Stage(next) == 3)
      && (!request.Start? && !request.Close? ==> Stage(state) == 2)
      && (forall started :: Remembers(state, started) ==> Remembers(next, started || request.Start?))
  {}

  /** A request, its event and its command are of a kind. */
  lemma RequestKind(request: Request, highWater: nat, tail: bytes)
    ensures var event, command := request.Event(), request.Command(highWater, tail);
      && (event.StartRequested? <==> command.PrepareCommand?) && (event.FinalizeRequested? <==> command.Finalizes())
      && (event.CloseRequested? <==> command.CloseCommand?) && (event.CloseRequested? <==> request.Close?)
      && !event.PublishRequested? && !event.IsResult()
  {}

  lemma AdmitFits(admitted: seq<Command>, state: State, request: Request, highWater: nat, tail: bytes)
    requires AdmissionsFit(admitted, state)
    requires Transition(state, request.Event()).directive == Admit
    ensures AdmissionsFit(admitted + [request.Command(highWater, tail)], Transition(state, request.Event()).state)
  {
    hide Transition;
    AdmitMoves(state, request);
    var command := request.Command(highWater, tail);
    var all := admitted + [command];
    forall i, j | 0 <= i < j < |all|
      ensures !(all[i].PrepareCommand? && all[j].PrepareCommand?)
      ensures !(all[i].Finalizes() && all[j].Finalizes())
      ensures !(all[i].CloseCommand? && all[j].CloseCommand?)
    {
      if j == |admitted| {
        assert all[i] == admitted[i] && admitted[i] in admitted;
      } else {
        assert all[i] == admitted[i] && all[j] == admitted[j];
      }
    }
    assert forall c :: c in all <==> c in admitted || c == command;
    assert PrepareCommand in all <==> PrepareCommand in admitted || request.Start?;
  }

  lemma ResultFits(admitted: seq<Command>, state: State, event: Event)
    requires AdmissionsFit(admitted, state) && event.IsResult()
    requires event.CommandFailed? ==> PrepareCommand in admitted
    requires event.CloseFailed? ==> state.Closing?
    ensures AdmissionsFit(admitted, Transition(state, event).state)
    ensures Stage(state) <= Stage(Transition(state, event).state)
  {
    StageAdvances(state, event);
  }

  lemma PublishKeeps(
    calls: seq<Call>, failing: seq<Pending>, commands: seq<Pending>, inflight: Option<Pending>,
    arena: bytes, published: nat, publishedTail: bytes, admitted: seq<Command>, state: State, closePending: Option<nat>,
    first: Option<Error>, raising: bool, newPublished: nat, newTail: bytes)
    requires Stage(state) <= 2 && published <= newPublished && (published == newPublished ==> publishedTail <= newTail)
    requires HistoryOk(calls, arena, published, publishedTail, admitted, state, first, raising)
    requires QueueOk(failing, commands, inflight, arena, published, publishedTail, admitted, state, closePending,
                     CloseCalled(calls))
    ensures HistoryOk(calls, arena, newPublished, newTail, admitted, state, first, raising)
    ensures QueueOk(failing, commands, inflight, arena, newPublished, newTail, admitted, state, closePending,
                    CloseCalled(calls))
  {
    hide CallsFit, Broken, StopsAfterFailure, CloseWaitsLast;
    assert forall i :: 0 <= i < |calls| && calls[i].Operation? ==>
      !calls[i].command.Finalizes() && !calls[i].command.CloseCommand?;
    CallsFitLater(calls, arena, published, publishedTail, newPublished, newTail);
  }

  lemma AdmitKeepsHistory(
    calls: seq<Call>, arena: bytes, published: nat, publishedTail: bytes, admitted: seq<Command>, state: State,
    first: Option<Error>, raising: bool, request: Request)
    requires HistoryOk(calls, arena, published, publishedTail, admitted, state, first, raising)
    requires Transition(state, request.Event()).directive == Admit
    ensures HistoryOk(calls, arena, published, publishedTail, admitted + [request.Command(published, publishedTail)],
                      Transition(state, request.Event()).state, first, raising)
  {
    hide Transition, CallsFit, Broken, StopsAfterFailure;
    AdmitMoves(state, request);
  }

  /** What waits still fits after an admission, and so does the new command. */
  lemma AdmitKeepsWaiting(
    queue: seq<Pending>, arena: bytes, published: nat, publishedTail: bytes, admitted: seq<Command>, state: State,
    request: Request, pending: Pending, next: State)
    requires WriterHistory.QueueFits(queue, arena, published, publishedTail, state, admitted)
    requires Frontier(arena, published, publishedTail)
    requires Stage(state) <= Stage(next) && pending.command == request.Command(published, publishedTail)
    requires request.Seal? || request.PublishPrefix? || request.Close? ==> Stage(next) >= 3
    ensures WriterHistory.QueueFits(queue + [pending], arena, published, publishedTail, next, admitted + [pending.command])
  {
    hide Frontier, Stage;
    var more, all := queue + [pending], admitted + [pending.command];
    assert all[|admitted|] == pending.command;
    forall i | 0 <= i < |more|
      ensures CommandFits(more[i].command, arena, published, publishedTail, next) && more[i].command in all
    {
      if i < |queue| {
        assert more[i] == queue[i];
        assert CommandFits(queue[i].command, arena, published, publishedTail, state) && queue[i].command in admitted;
      }
    }
  }

  lemma AdmitKeepsQueue(
    failing: seq<Pending>, commands: seq<Pending>, inflight: Option<Pending>,
    arena: bytes, published: nat, publishedTail: bytes, admitted: seq<Command>, state: State,
    closePending: Option<nat>, closeCalled: bool, request: Request, pending: Pending)
    requires QueueOk(failing, commands, inflight, arena, published, publishedTail, admitted, state, closePending, closeCalled)
    requires Frontier(arena, published, publishedTail)
    requires Transition(state, request.Event()).directive == Admit
    requires pending.command == request.Command(published, publishedTail)
    ensures QueueOk(failing, commands + [pending], inflight, arena, published, publishedTail, admitted + [pending.command],
                    Transition(state, request.Event()).state,
                    if request.Close? then Some(pending.future) else closePending, closeCalled)
  {
    hide Transition, AdmissionsFit, WriterHistory.QueueFits, Frontier;
    AdmitMoves(state, request);
    AdmitFits(admitted, state, request, published, publishedTail);
    AdmitKeepsWaiting(failing + commands, arena, published, publishedTail, admitted, state, request, pending,
                      Transition(state, request.Event()).state);
    assert failing + (commands + [pending]) == (failing + commands) + [pending];
  }

  lemma AdmitKeepsFutures(
    completions: seq<Completion>, inflight: Option<Pending>, failing: seq<Pending>, commands: seq<Pending>,
    nextFuture: nat, pending: Pending)
    requires FuturesOk(completions, inflight, failing, commands, nextFuture)
    requires pending.future == nextFuture
    ensures FuturesOk(completions, inflight, failing, commands + [pending], nextFuture + 1)
  {
    hide Settled;
    WaitingAppend(commands, [pending]);
    OneWaiting(pending);
    IssuedNext(nextFuture);
  }

  lemma PopKeeps(
    commands: seq<Pending>, arena: bytes, published: nat, publishedTail: bytes, admitted: seq<Command>, state: State,
    closePending: Option<nat>)
    requires commands != []
    requires QueueOk([], commands, None, arena, published, publishedTail, admitted, state, closePending, false)
    ensures QueueOk([], commands[1..], Some(commands[0]), arena, published, publishedTail, admitted, state, closePending, false)
    ensures commands[0].command.CloseCommand? ==> state.Closing?
  {
    hide AdmissionsFit;
    assert [] + commands == commands && [] + commands[1..] == commands[1..];
  }

  lemma PopKeepsFutures(completions: seq<Completion>, commands: seq<Pending>, nextFuture: nat)
    requires commands != [] && FuturesOk(completions, None, [], commands, nextFuture)
    ensures FuturesOk(completions, Some(commands[0]), [], commands[1..], nextFuture)
  {}

  /** The arena is drained as far as the operation of this command asks. */
  predicate Ready(calls: seq<Call>, command: Command, drained: bool, published: nat, publishedTail: bytes) {
    && (command.HasFrontier() && !command.CloseCommand? ==> drained)
    && (command.HasFrontier() && drained ==> Reached(calls, command.highWater, command.tail))
    && ((command.Finalizes() || command.CloseCommand?) && drained ==>
          command.highWater == published && command.tail == publishedTail)
  }

  lemma OperationFits(calls: seq<Call>, call: Call, arena: bytes, published: nat, publishedTail: bytes)
    requires call.Operation?
    requires |Delivered(calls)| <= published <= |arena| && Delivered(calls) == arena[..|Delivered(calls)|]
    requires Ready(calls, call.command, call.drained, published, publishedTail)
    ensures CallFits(calls, call, arena, published, publishedTail)
  {
    if (call.command.Finalizes() || call.command.CloseCommand?) && call.drained {
      DrainIsComplete(calls, arena, published, publishedTail);
    }
  }

  lemma FrontierWithin(arena: bytes, highWater: nat, tail: bytes)
    requires Frontier(arena, highWater, tail)
    ensures highWater <= |arena|
  {}

  lemma CommandFrontier(command: Command, arena: bytes, published: nat, publishedTail: bytes, state: State)
    requires CommandFits(command, arena, published, publishedTail, state) && command.HasFrontier()
    ensures Frontier(arena, command.highWater, command.tail) && command.highWater <= published
    ensures command.Finalizes() || command.CloseCommand? ==>
      command.highWater == published && command.tail == publishedTail
  {}

  lemma SuccessKeepsHistory(
    calls: seq<Call>, arena: bytes, published: nat, publishedTail: bytes,
    admitted: seq<Command>, state: State, first: Option<Error>, command: Command)
    requires HistoryOk(calls, arena, published, publishedTail, admitted, state, first, false)
    ensures HistoryOk(calls, arena, published, publishedTail, admitted,
                      Transition(state, SuccessEvent(command)).state, first, false)
  {
    hide CallsFit, StopsAfterFailure, CallsAdmitted, Broken, Transition;
    SuccessMoves(state, command);
  }

  lemma AllSettled(completions: seq<Completion>, nextFuture: nat)
    ensures FuturesOk(completions, None, [], [], nextFuture) ==> SettledOnce(completions, nextFuture)
  {
    if FuturesOk(completions, None, [], [], nextFuture) {
      assert Settled(completions) == Issued(nextFuture);
      forall future: nat
        ensures Settled(completions)[future] == if future < nextFuture then 1 else 0
      {
        IssuedOnce(nextFuture, future);
      }
    }
  }

  lemma FailureKeepsFutures(
    completions: seq<Completion>, inflight: Option<Pending>, commands: seq<Pending>, nextFuture: nat)
    requires FuturesOk(completions, inflight, [], commands, nextFuture)
    ensures FuturesOk(completions, inflight, commands, [], nextFuture)
  {}

  lemma PutBack(
    completions: seq<Completion>, inflight: Option<Pending>, failing: seq<Pending>, commands: seq<Pending>, nextFuture: nat)
    requires FuturesOk(completions, inflight, failing, commands, nextFuture)
    ensures FuturesOk(completions, inflight, [], failing + commands, nextFuture)
  {
    WaitingAppend(failing, commands);
  }

  lemma QuietBeforeClose(
    commands: seq<Pending>, arena: bytes, published: nat, publishedTail: bytes, admitted: seq<Command>, state: State,
    closePending: Option<nat>, closeCalled: bool)
    requires QueueOk([], commands, None, arena, published, publishedTail, admitted, state, closePending, closeCalled)
    requires !state.Closed?
    ensures !closeCalled
  {}

  /** A call that fits the history joins it; one that raises marks the first failure. */
  lemma CallKeepsHistory(
    calls: seq<Call>, call: Call, arena: bytes, published: nat, publishedTail: bytes,
    admitted: seq<Command>, state: State, first: Option<Error>, error: Error)
    requires HistoryOk(calls, arena, published, publishedTail, admitted, state, first, false)
    requires CallFits(calls, call, arena, published, publishedTail)
    requires !CloseCalled(calls)
    requires first.None? || (call.IsClose() && !call.drained)
    requires call.Operation? ==> call.command in admitted
    ensures
      var raised := if first.None? && !call.ok then Some(error) else first;
      HistoryOk(calls + [call], arena, published, publishedTail, admitted, state, raised, !call.ok)
  {
    hide CallFits, CallsFit;
    CallsFitNext(calls, call, arena, published, publishedTail);
    var all := calls + [call];
    if call.ok {
      assert Broken(all) ==> Broken(calls) by {
        if i :| 0 <= i < |all| && !all[i].ok {
          assert calls[i] == all[i];
        }
      }
      assert Broken(calls) ==> Broken(all) by {
        if i :| 0 <= i < |calls| && !calls[i].ok {
          assert calls[i] == all[i];
        }
      }
    } else {
      assert !all[|calls|].ok;
    }
  }

  lemma SuccessMoves(state: State, command: Command)
    ensures
      var next := Transition(state, SuccessEvent(command)).state;
      && Stage(state) <= Stage(next) && FailureOf(next) == FailureOf(state)
      && (state.Closing? && !command.CloseCommand? ==> next.Closing?)
      && (state.Closing? && command.CloseCommand? ==> next.Closed?)
      && (Stage(state) < 6 ==> Stage(next) < 6)
      && (state.Closed? ==> next == state)
      && (state.Closing? && !command.CloseCommand? ==>
            next == state.(drain := if command.ReadBeginCommand? then FailureOf(state).None? else state.drain))
  {}

  lemma SuccessKeepsQueue(
    commands: seq<Pending>, inflight: Pending,
    arena: bytes, published: nat, publishedTail: bytes, admitted: seq<Command>, state: State,
    closePending: Option<nat>, closeCalled: bool)
    requires QueueOk([], commands, Some(inflight), arena, published, publishedTail, admitted, state, closePending, closeCalled)
    requires inflight.command.CloseCommand? ==> state.Closing?
    ensures QueueOk([], commands, Some(inflight), arena, published, publishedTail, admitted,
                    Transition(state, SuccessEvent(inflight.command)).state, closePending, closeCalled)
  {
    ResultFits(admitted, state, SuccessEvent(inflight.command));
    SuccessMoves(state, inflight.command);
    hide Transition, AdmissionsFit;
  }

  lemma FailureMoves(state: State, error: Error, closeFailed: bool)
    requires closeFailed ==> state.Closing?
    requires !state.Closed?
    ensures
      var next := Transition(state, if closeFailed then CloseFailed(error) else CommandFailed(error)).state;
      && Stage(state) <= Stage(next) && FailureOf(next) == Some(Latch(state, error))
      && (closeFailed ==> next.Closed?)
      && (!closeFailed ==> (state.Closing? <==> next.Closing?) && !next.Closed?)
  {}

  /** Recording a failure takes every waiting command off the queue, into `failing`. */
  lemma FailureKeepsQueue(
    commands: seq<Pending>, inflight: Option<Pending>,
    arena: bytes, published: nat, publishedTail: bytes, admitted: seq<Command>, state: State,
    closePending: Option<nat>, closeCalled: bool, error: Error, closeFailed: bool)
    requires QueueOk([], commands, inflight, arena, published, publishedTail, admitted, state, closePending, closeCalled)
    requires closeFailed == IsRunning(inflight) && (closeFailed ==> state.Closing?) && !state.Closed?
    requires !closeFailed ==> PrepareCommand in admitted
    ensures QueueOk(commands, [], inflight, arena, published, publishedTail, admitted,
                    Transition(state, if closeFailed then CloseFailed(error) else CommandFailed(error)).state,
                    closePending, closeCalled)
  {
    ResultFits(admitted, state, if closeFailed then CloseFailed(error) else CommandFailed(error));
    FailureMoves(state, error, closeFailed);
    hide Transition, AdmissionsFit;
    assert [] + commands == commands && commands + [] == commands;
  }

  lemma FailureKeepsHistory(
    calls: seq<Call>, arena: bytes, published: nat, publishedTail: bytes,
    admitted: seq<Command>, state: State, first: Option<Error>, error: Error, closeFailed: bool)
    requires HistoryOk(calls, arena, published, publishedTail, admitted, state, first, true)
    requires FailureOf(state).None? ==> first == Some(error)
    requires (closeFailed ==> state.Closing?) && !state.Closed?
    ensures HistoryOk(calls, arena, published, publishedTail, admitted,
                      Transition(state, if closeFailed then CloseFailed(error) else CommandFailed(error)).state, first, false)
  {
    hide CallsFit, StopsAfterFailure, CallsAdmitted, Broken, Transition;
    FailureMoves(state, error, closeFailed);
  }

  /** The head of `failing` leaves it, settled or put back on the queue. */
  lemma HeadLeaves(
    failing: seq<Pending>, commands: seq<Pending>, inflight: Option<Pending>,
    arena: bytes, published: nat, publishedTail: bytes, admitted: seq<Command>, state: State,
    closePending: Option<nat>, closeCalled: bool)
    requires failing != []
    requires QueueOk(failing, commands, inflight, arena, published, publishedTail, admitted, state, closePending, closeCalled)
    ensures failing[0].command.CloseCommand? ==>
      failing == [failing[0]] && commands == []
      && QueueOk([], failing + commands, inflight, arena, published, publishedTail, admitted, state, closePending, closeCalled)
    ensures !failing[0].command.CloseCommand? ==>
      QueueOk(failing[1..], commands, inflight, arena, published, publishedTail, admitted, state, closePending, closeCalled)
  {
    hide AdmissionsFit;
    var queue := failing + commands;
    assert queue[0] == failing[0];
    assert failing[1..] + commands == queue[1..];
    assert [] + (failing + commands) == queue;
  }

  lemma SettleHead(
    completions: seq<Completion>, inflight: Option<Pending>, failing: seq<Pending>, commands: seq<Pending>, nextFuture: nat,
    error: Option<Error>)
    requires failing != [] && FuturesOk(completions, inflight, failing, commands, nextFuture)
    ensures FuturesOk(completions + [Completion(failing[0].future, error)], inflight, failing[1..], commands, nextFuture)
  {
    SettledNext(completions, Completion(failing[0].future, error));
  }

  lemma SettleInflight(
    completions: seq<Completion>, inflight: Pending, failing: seq<Pending>, commands: seq<Pending>, nextFuture: nat,
    error: Option<Error>)
    requires FuturesOk(completions, Some(inflight), failing, commands, nextFuture)
    ensures FuturesOk(completions + [Completion(inflight.future, error)], None, failing, commands, nextFuture)
  {
    SettledNext(completions, Completion(inflight.future, error));
  }

  lemma SettledNext(completions: seq<Completion>, next: Completion)
    ensures Settled(completions + [next]) == Settled(completions) + multiset{next.future}
  {
    assert (completions + [next])[..|completions|] == completions;
  }

  /** The command in flight is done: nothing waits on it any more. */
  lemma InflightLeaves(
    failing: seq<Pending>, commands: seq<Pending>, inflight: Pending,
    arena: bytes, published: nat, publishedTail: bytes, admitted: seq<Command>, state: State,
    closePending: Option<nat>, closeCalled: bool)
    requires QueueOk(
      failing, commands, Some(inflight), arena, published, publishedTail, admitted, state, closePending, closeCalled)
    requires inflight.command.CloseCommand? ==> state.Closed?
    ensures QueueOk(failing, commands, None, arena, published, publishedTail, admitted, state, closePending, closeCalled)
  {
    hide AdmissionsFit;
  }

  // ----- the writer

  class AttemptWriter {
    const arena: bytes
    const chunkRecords: nat
    const maxControlCommands: nat
    const target: nat -> Option<Error>  // how the target answers each call made of it

    var published: nat
    var publishedTail: bytes
    var written: nat
    var writtenTail: bytes
    var state: State
    var commands: seq<Pending>
    var closePending: Option<nat>
    var nextFuture: nat

    var asked: nat  // how many calls the target has answered

    // what the worker holds between its lock sections
    var inflight: Option<Pending>  // the command it has taken off the queue
    var failing: seq<Pending>  // the commands a failure has taken off the queue

    // the history
    ghost var calls: seq<Call>
    ghost var admitted: seq<Command>
    ghost var completions: seq<Completion>
    ghost var first: Option<Error>  // the first error a target call raised
    ghost var raising: bool  // an error is raised and not recorded yet
    ghost var untold: bool  // an operation has returned and the machine has not been told yet

    /** What is published, handed over and noted as written. */
    ghost predicate DataFits()
      reads this
    {
      && chunkRecords > 0
      && Frontier(arena, published, publishedTail)
      && Frontier(arena, written, writtenTail)
      && written <= |Delivered(calls)| <= published
      && Delivered(calls) == arena[..|Delivered(calls)|]
      && (|Delivered(calls)| == published ==> DeliveredTail(calls) <= publishedTail)
    }

    /** Nothing was handed over that is not noted. */
    ghost predicate CaughtUp()
      reads this
    {
      written == |Delivered(calls)| && writtenTail == DeliveredTail(calls)
    }

    ghost predicate HistoryFits()
      reads this
    {
      HistoryOk(calls, arena, published, publishedTail, admitted, state, first, raising)
    }

    ghost predicate QueueFits()
      reads this
    {
      QueueOk(failing, commands, inflight, arena, published, publishedTail, admitted, state, closePending, CloseCalled(calls))
    }

    ghost predicate FuturesFit()
      reads this
    {
      FuturesOk(completions, inflight, failing, commands, nextFuture)
    }

    ghost predicate LedgerFits()
      reads this
    {
      && nextFuture == |admitted| && asked == |calls|
      && LedgerOk(calls, admitted, completions, inflight, failing + commands, first, target)
    }

    ghost predicate MachineFits()
      reads this
    {
      && MachineOk(state, calls, untold, admitted)
      && (untold ==> inflight.Some? && inflight.value.command == calls[|calls| - 1].command)
    }

    ghost predicate Valid()
      reads this
    {
      DataFits() && HistoryFits() && QueueFits() && FuturesFit() && LedgerFits() && MachineFits()
    }

    /** The calls whose results the machine has been told. */
    ghost function Heard(): seq<Call>
      reads this
    {
      Told(calls, untold)
    }

    /** What the machine answers now, as far as the past decides it. */
    ghost function Answer(event: Event): Directive
      requires !event.IsResult()
      reads this
    {
      Verdict(event, Heard(), admitted, FailureOf(state).Some?)
    }

    constructor (arena: bytes, chunkRecords: nat, maxControlCommands: nat, target: nat -> Option<Error>)
      requires chunkRecords > 0
      ensures Valid() && CaughtUp() && state == Constructed && this.arena == arena && this.target == target
      ensures this.chunkRecords == chunkRecords && this.maxControlCommands == maxControlCommands
      ensures calls == [] && admitted == [] && completions == [] && published == 0 && inflight.None? && failing == []
      ensures !raising && !untold
    {
      hide HistoryOk, QueueOk, FuturesOk, LedgerOk, MachineOk, Frontier, Delivered, DeliveredTail, CloseCalled;
      this.arena := arena;
      this.chunkRecords := chunkRecords;
      this.maxControlCommands := maxControlCommands;
      this.target := target;
      published, publishedTail, written, writtenTail := 0, [], 0, [];
      state := Constructed;
      commands, closePending, nextFuture, asked := [], None, 0, 0;
      calls, admitted, completions, inflight, failing := [], [], [], None, [];
      first, raising, untold := None, false, false;
      new;
      NothingCalled(this.arena, this.target);
      NothingQueued(this.arena);
      assert HistoryFits() && FuturesFit() && QueueFits();
      assert DataFits() && LedgerFits() && MachineFits();
    }

    // ----- the producer's lock sections

    ghost function View(): Shared
      reads this
    {
      Shared(published, publishedTail, state, commands, admitted)
    }

    /** `publish`: a valid frontier advances exactly if publication is open and it is further, or as far with a longer
      * tail; nothing else moves. */
    method Publish(highWater: int, tail: bytes) returns (outcome: PublishOutcome)
      requires Valid()
      modifies `published, `publishedTail
      ensures outcome.Advanced? ==> published == highWater && publishedTail == tail
      ensures !outcome.Advanced? ==> published == old(published) && publishedTail == old(publishedTail)
      ensures outcome == PublishAnswer(arena, old(published), old(publishedTail), Answer(PublishRequested), highWater, tail)
      ensures outcome == InvalidArgument <==>
        !(&& 0 <= highWater && highWater % 444 == 0 && |tail| < 444 && highWater + |tail| <= |arena|
          && arena[highWater..highWater + |tail|] == tail)
      ensures outcome != TailConflict
      ensures Valid() && GrewFrom(old(View()), View())
    {
      hide Transition, HistoryOk, QueueOk, FuturesOk, LedgerOk, MachineOk, Delivered, DeliveredTail, CloseCalled;
      PublicationOpen(state);
      HistoryAdmits(calls, arena, published, publishedTail, admitted, state, first, raising);
      MachineAnswers(state, PublishRequested, calls, untold, admitted);
      if !(0 <= highWater <= |arena|) {
        return InvalidArgument;
      }
      if highWater % RECORD_SIZE != 0 || |tail| >= RECORD_SIZE {
        return InvalidArgument;
      }
      if highWater + |tail| > |arena| || arena[highWater..highWater + |tail|] != tail {
        return InvalidArgument;
      }
      // with self._lock
      var result := Transition(state, PublishRequested);
      if result.directive.Reject? {
        return Rejected(result.directive.kind);
      }
      if highWater < published {
        return NoOp;
      }
      if highWater == published {
        var overlap := Min(|tail|, |publishedTail|);
        if publishedTail[..overlap] != tail[..overlap] {
          return TailConflict;
        }
        if |tail| <= |publishedTail| {
          return NoOp;
        }
      }
      PublishKeeps(calls, failing, commands, inflight, arena, published, publishedTail, admitted, state, closePending,
                   first, raising, highWater, tail);
      published := highWater;
      publishedTail := tail;
      return Advanced;
    }

    /** `_admit`: the machine's directive and the room in the queue decide. */
    method Admit(request: Request) returns (outcome: AdmitOutcome)
      requires Valid()
      modifies `state, `commands, `closePending, `nextFuture, `admitted
      ensures AdmitAnswers(old(Answer(request.Event())), request.Close? || |old(commands)| < maxControlCommands,
                           old(nextFuture), old(closePending), outcome)
      ensures outcome.Queued? || outcome.QueueFull? <==>
        Welcome(request, old(Heard()), old(admitted), FailureOf(old(state)).Some?)
      ensures outcome.Queued? ==>
        && state == Transition(old(state), request.Event()).state
        && commands == old(commands) + [Pending(request.Command(published, publishedTail), outcome.future)]
        && admitted == old(admitted) + [request.Command(published, publishedTail)]
        && AsksFor(request.Command(published, publishedTail), request, published, publishedTail)
        && nextFuture == old(nextFuture) + 1
        && closePending == (if request.Close? then Some(outcome.future) else old(closePending))
        && (request.Close? ==> ClosesBy(old(state), old(Heard()), old(admitted), state))
      ensures !outcome.Queued? ==>
        && state == old(state) && commands == old(commands) && admitted == old(admitted)
        && nextFuture == old(nextFuture) && closePending == old(closePending)
      ensures Valid() && GrewFrom(old(View()), View())
    {
      hide Transition, HistoryOk, FuturesOk, LedgerOk, MachineOk, AdmissionsFit, WriterHistory.QueueFits,
        CloseWaitsLast, Delivered, DeliveredTail, AsksFor, Welcome;
      HistoryAdmits(calls, arena, published, publishedTail, admitted, state, first, raising);
      MachineAnswers(state, request.Event(), calls, untold, admitted);
      VerdictWelcomes(request, Told(calls, untold), admitted, FailureOf(state).Some?);
      CommandAsks(request, published, publishedTail);
      // with self._lock
      var result := Transition(state, request.Event());
      match result.directive {
        case Reject(kind) => return Refused(kind);
        case Ignore => return Ignored;
        case ReuseClose =>
          ReuseMeansClosing(state, request);
          return Reused(closePending.value);
        case Admit =>
      }
      if !request.Close? && |commands| >= maxControlCommands {
        return QueueFull;
      }
      var pending := Pending(request.Command(published, publishedTail), nextFuture);
      Enqueue(request, pending, result.state);
      return Queued(pending.future);
    }

    /** The four updates of an admission, made in one lock section. */
    method Enqueue(request: Request, pending: Pending, next: State)
      requires Valid() && Transition(state, request.Event()) == TransitionResult(next, WriterMachine.Admit)
      requires pending == Pending(request.Command(published, publishedTail), nextFuture)
      modifies `state, `commands, `closePending, `nextFuture, `admitted
      ensures Valid() && GrewFrom(old(View()), View())
      ensures state == next && commands == old(commands) + [pending] && nextFuture == old(nextFuture) + 1
      ensures admitted == old(admitted) + [pending.command]
      ensures closePending == if request.Close? then Some(pending.future) else old(closePending)
      ensures request.Close? ==> ClosesBy(old(state), old(Heard()), old(admitted), state)
    {
      hide Transition, HistoryOk, QueueOk, FuturesOk, LedgerOk, MachineOk, Delivered, DeliveredTail, CloseCalled,
        Frontier, Stage, FailureOf, WillDrain, StartAsked, Told, Waiting, Request.Command, Request.Event;
      AdmitMoves(state, request);
      RequestKind(request, published, publishedTail);
      AdmitKeepsHistory(calls, arena, published, publishedTail, admitted, state, first, raising, request);
      AdmitKeepsQueue(failing, commands, inflight, arena, published, publishedTail, admitted, state, closePending,
                      CloseCalled(calls), request, pending);
      AdmitKeepsFutures(completions, inflight, failing, commands, nextFuture, pending);
      AdmitKeepsMachine(state, request.Event(), calls, untold, admitted, pending.command);
      AdmitKeepsLedger(calls, admitted, completions, inflight, failing + commands, first, target, pending);
      ConcatAssociates(failing, commands, [pending]);
      commands := commands + [pending];
      admitted := admitted + [pending.command];
      state := next;
      nextFuture := nextFuture + 1;
      if request.Close? {
        closePending := Some(pending.future);
      }
    }

    /** Any number of producer steps, with any arguments, while the worker is outside the lock. */
    method Interfere()
      requires Valid()
      modifies `published, `publishedTail, `state, `commands, `closePending, `nextFuture, `admitted
      ensures Valid() && GrewFrom(old(View()), View())
    {
      hide HistoryOk, QueueOk, FuturesOk, LedgerOk, MachineOk, DataFits, Transition;
      var steps: nat := *;
      while steps > 0
        invariant Valid() && GrewFrom(old(View()), View())
      {
        ghost var before := View();
        if * {
          var highWater: int, tail: bytes := *, *;
          var _ := Publish(highWater, tail);
        } else {
          var request: Request := *;
          var _ := Admit(request);
        }
        GrewOn(old(View()), before, View());
        steps := steps - 1;
      }
    }

    // ----- the worker

    /** Between target calls: nothing is unrecorded, and the worker holds no failed commands. */
    ghost predicate Steady()
      reads this
    {
      Valid() && CaughtUp() && !raising && !untold && failing == []
    }

    /** `_next_command`. */
    method NextCommand() returns (pending: Option<Pending>)
      requires Steady() && inflight.None? && !state.Closed?
      modifies `commands, `inflight
      ensures Steady() && inflight == pending
      ensures pending.None? ==> old(commands) == [] && commands == []
      ensures pending.Some? ==> old(commands) == [pending.value] + commands && NotCalled(calls, pending.value.future)
      ensures pending.Some? && pending.value.command.CloseCommand? ==> state.Closing?
      ensures !CloseCalled(calls)
    {
      hide HistoryOk, QueueOk, FuturesOk, LedgerOk, MachineOk, NotCalled, Delivered, DeliveredTail, CloseCalled;
      QuietBeforeClose(commands, arena, published, publishedTail, admitted, state, closePending, CloseCalled(calls));
      // with self._lock
      if commands == [] {
        return None;
      }
      pending := Some(commands[0]);
      PopKeepsFutures(completions, commands, nextFuture);
      PopKeeps(commands, arena, published, publishedTail, admitted, state, closePending);
      assert failing + commands == commands && failing + commands[1..] == commands[1..];
      PopKeepsLedger(calls, admitted, completions, commands, first, target);
      inflight := pending;
      commands := commands[1..];
    }

    /** One call of `target.append_chunk`. */
    method AppendChunk(ghost cause: Option<nat>, offset: nat, chunk: bytes, tail: bytes) returns (error: Option<Error>)
      requires Valid() && first.None? && !raising && !untold && !CloseCalled(calls)
      requires offset == |Delivered(calls)| && offset + |chunk| <= published
      requires SliceAt(arena, offset, chunk) && |chunk| % RECORD_SIZE == 0
      requires SliceAt(arena, offset + |chunk|, tail) && |tail| < RECORD_SIZE
      requires offset + |chunk| == published ==> tail <= publishedTail
      requires Justified(calls, cause, offset, chunk, tail, admitted)
      modifies `asked, `calls, `first, `raising
      ensures Valid() && !CloseCalled(calls)
      ensures error == target(|old(calls)|)
      ensures calls == old(calls) + [Append(cause, offset, chunk, tail, error.None?)]
      ensures error.None? ==> |Delivered(calls)| == offset + |chunk| && DeliveredTail(calls) == tail
      ensures error.Some? ==> Delivered(calls) == old(Delivered(calls)) && DeliveredTail(calls) == old(DeliveredTail(calls))
      ensures first == error && raising == error.Some?
    {
      hide HistoryOk, QueueOk, FuturesOk, LedgerOk, MachineOk, Justified, Delivered, DeliveredTail;
      error := target(asked);
      var reason := if error.Some? then error.value else "";
      ghost var call := Append(cause, offset, chunk, tail, error.None?);
      CallKeepsHistory(calls, call, arena, published, publishedTail, admitted, state, first, reason);
      CallKeepsLedger(calls, call, admitted, completions, inflight, failing + commands, first, target, error);
      CallKeepsMachine(state, calls, admitted, call);
      DeliveredNext(calls, call);
      assert arena[..offset] + arena[offset..offset + |chunk|] == arena[..offset + |chunk|];
      asked := asked + 1;
      calls := calls + [call];
      first, raising := error, error.Some?;
    }

    /** The closing lines of an append: what was handed over is noted, under the lock. */
    method NoteWritten(end: nat, tail: bytes)
      requires Valid() && end == |Delivered(calls)| && tail == DeliveredTail(calls) && Frontier(arena, end, tail)
      modifies `written, `writtenTail
      ensures Valid() && CaughtUp() && written == end && writtenTail == tail
    {
      hide HistoryOk, QueueOk, FuturesOk, LedgerOk, MachineOk, Delivered, DeliveredTail;
      written, writtenTail := end, tail;
    }

    /** One `append_chunk` from the written offset up to `end`, and its notes. */
    method HandOver(ghost cause: Option<nat>, end: nat, tail: bytes) returns (error: Option<Error>)
      requires Valid() && CaughtUp() && !raising && !untold && first.None? && !CloseCalled(calls)
      requires written <= end <= published && (end - written) % RECORD_SIZE == 0 && Frontier(arena, end, tail)
      requires end == published ==> tail <= publishedTail
      requires end <= |arena| && Justified(calls, cause, written, arena[written..end], tail, admitted)
      modifies `published, `publishedTail, `state, `commands, `closePending, `nextFuture, `admitted,
               `written, `writtenTail, `asked, `calls, `first, `raising
      ensures Valid() && GrewFrom(old(View()), View()) && !CloseCalled(calls)
      ensures error == target(|old(calls)|)
      ensures calls == old(calls) + [Append(cause, old(written), arena[old(written)..end], tail, error.None?)]
      ensures first == error && raising == error.Some?
      ensures CaughtUp() && (error.None? ==> written == end && writtenTail == tail)
    {
      hide HistoryOk, QueueOk, FuturesOk, LedgerOk, MachineOk, Justified, Delivered, DeliveredTail, CloseCalled,
        Frontier, SliceAt, GrewFrom;
      SlicesOf(arena, written, end, tail);
      error := AppendChunk(cause, written, arena[written..end], tail);
      StandsStill(View());
      if error.Some? {
        return;
      }
      ghost var appended := View();
      Interfere();
      PublishedGrew(appended, View());
      NoteWritten(end, tail);
      ghost var noted := View();
      Interfere();
      GrewOn(old(View()), noted, View());
    }

    /** One append of a drain towards a frontier noted under the lock. */
    method AppendNext(ghost since: seq<Call>, ghost drain: Drain, ghost written0: nat, ghost writtenTail0: bytes,
                      start: nat, end: nat, following: bytes)
      returns (error: Option<Error>)
      requires Valid() && CaughtUp() && !raising && !untold && first.None? && !CloseCalled(calls)
      requires drain.arena == arena && drain.chunkRecords == chunkRecords
      requires start == written && Frontier(arena, drain.frontier, drain.tail)
      requires start < drain.frontier || (start == drain.frontier && writtenTail != drain.tail)
      requires drain.cause.None? && start == drain.frontier ==> writtenTail <= drain.tail
      requires Behind(drain.frontier, drain.tail, published, publishedTail)
      requires drain.cause.Some? ==> FrontierOf(drain.cause.value, drain.frontier, drain.tail, admitted)
      requires drain.cause.None? ==> calls == since && ReadBegun(calls)
      requires end == Min(drain.frontier, start + chunkRecords * RECORD_SIZE)
      requires following == if end == drain.frontier then drain.tail else []
      requires Draining(since, calls, drain, written0, writtenTail0, target, start, writtenTail)
      modifies `published, `publishedTail, `state, `commands, `closePending, `nextFuture, `admitted,
               `written, `writtenTail, `asked, `calls, `first, `raising
      ensures Valid() && CaughtUp() && GrewFrom(old(View()), View()) && !CloseCalled(calls)
      ensures first == error && raising == error.Some?
      ensures calls != since && (error.None? ==> written == end && writtenTail == following)
      ensures error.None? ==> Draining(since, calls, drain, written0, writtenTail0, target, end, following)
      ensures error.Some? ==> DrainMade(since, calls, drain, written0, writtenTail0, target, error)
    {
      hide HistoryOk, QueueOk, FuturesOk, LedgerOk, MachineOk, Delivered, DeliveredTail, CloseCalled, Frontier, SliceAt,
        GrewFrom, DrainMade, Draining, FrontierOf, Justified, Drain.Next;
      ghost var made, lastTail := calls, writtenTail;
      NextFits(arena, start, lastTail, drain.frontier, chunkRecords, drain.tail);
      NextAppendIs(drain, start, lastTail);
      NextJustified(calls, drain, start, lastTail, admitted);
      error := HandOver(drain.cause, end, following);
      DrainGoesOn(since, made, drain, written0, writtenTail0, target, start, lastTail,
                  Append(drain.cause, start, arena[start..end], following, true));
    }

    /** `_drain_data`. With `limit` the drain is exact: it hands over everything up to the frontier of the command it is
      * made for. Without, it hands over the one next append there is, if any. */
    method DrainData(ghost cause: Option<nat>, limit: Option<nat>, tail: bytes) returns (wrote: bool, error: Option<Error>)
      requires Valid() && CaughtUp() && !raising && !untold && first.None? && !CloseCalled(calls)
      requires cause.Some? <==> limit.Some?
      requires cause.None? ==> ReadBegun(calls)
      requires limit.Some? ==>
        && Frontier(arena, limit.value, tail) && Behind(limit.value, tail, published, publishedTail)
        && FrontierOf(cause.value, limit.value, tail, admitted)
      modifies `published, `publishedTail, `state, `commands, `closePending, `nextFuture, `admitted,
               `written, `writtenTail, `asked, `calls, `first, `raising
      ensures Valid() && GrewFrom(old(View()), View()) && !CloseCalled(calls)
      ensures first == error && raising == error.Some?
      ensures CaughtUp()
      ensures error.None? ==> (wrote <==> calls != old(calls))
      ensures var drain := Drain(arena, chunkRecords, cause, if limit.Some? then limit.value else old(published),
                                 if limit.Some? then tail else old(publishedTail));
        DrainMade(old(calls), calls, drain, old(written), old(writtenTail), target, error)
      ensures limit.Some? && error.None? ==> Reached(calls, limit.value, tail)
    {
      hide HistoryOk, QueueOk, FuturesOk, LedgerOk, MachineOk, Delivered, DeliveredTail, CloseCalled, Frontier, SliceAt,
        GrewFrom, DrainMade, Draining, FrontierOf, Behind, Justified;
      // with self._lock
      var frontier := if limit.None? then published else Min(limit.value, published);
      var frontierTail := if limit.None? then publishedTail else tail;
      var start := written;
      var lastTail := writtenTail;
      wrote, error := false, None;
      ghost var drain := Drain(arena, chunkRecords, cause, frontier, frontierTail);
      LockedFrontier(arena, limit, tail, published, publishedTail, start, lastTail);
      DrainStarts(calls, drain, start, lastTail, target);
      ghost var before := View();
      Interfere();
      LockedStill(before, View(), cause, frontier, frontierTail);
      while start < frontier
        invariant Valid() && CaughtUp() && GrewFrom(old(View()), View()) && !CloseCalled(calls)
        invariant error.None? && first.None? && !raising
        invariant start == written && lastTail == writtenTail
        invariant wrote <==> calls != old(calls)
        invariant Behind(frontier, frontierTail, published, publishedTail)
        invariant cause.Some? ==> FrontierOf(cause.value, frontier, frontierTail, admitted)
        invariant cause.None? ==> calls == old(calls)
        invariant Draining(old(calls), calls, drain, old(written), old(writtenTail), target, start, lastTail)
        decreases frontier - start
      {
        var end := Min(frontier, start + chunkRecords * RECORD_SIZE);
        var following := if end == frontier then frontierTail else [];
        NextChunk(arena, start, lastTail, frontier, chunkRecords, frontierTail);
        before := View();
        error := AppendNext(old(calls), drain, old(written), old(writtenTail), start, end, following);
        LockedStill(before, View(), cause, frontier, frontierTail);
        GrewOn(old(View()), before, View());
        if error.Some? {
          return;
        }
        wrote := true;
        start := end;
        lastTail := following;
        if limit.None? {
          break;
        }
      }
      DrainWell(old(calls), calls, drain, old(written), old(writtenTail), target, start, lastTail);
      if start == frontier && frontierTail != lastTail {
        before := View();
        error := AppendNext(old(calls), drain, old(written), old(writtenTail), start, start, frontierTail);
        GrewOn(old(View()), before, View());
        if error.Some? {
          return;
        }
        wrote := true;
        lastTail := frontierTail;
      }
      DrainEnds(old(calls), calls, drain, old(written), old(writtenTail), target, start, lastTail);
    }

    /** Settling a future that a failure has taken off the queue. */
    method CompleteFailing(error: Error)
      requires Valid() && failing != [] && !failing[0].command.CloseCommand? && first == Some(error)
      modifies `completions, `failing
      ensures Valid() && failing == old(failing[1..])
      ensures completions == old(completions) + [Completion(old(failing[0].future), Some(error))]
    {
      hide HistoryOk, QueueOk, FuturesOk, LedgerOk, MachineOk, CloseCalled, Frontier, Delivered, DeliveredTail;
      HeadLeaves(failing, commands, inflight, arena, published, publishedTail, admitted, state, closePending, CloseCalled(calls));
      SettleHead(completions, inflight, failing, commands, nextFuture, Some(error));
      assert (failing + commands)[0] == failing[0] && (failing + commands)[1..] == failing[1..] + commands;
      FailHeadKeepsLedger(calls, admitted, completions, inflight, failing + commands, first, target);
      completions := completions + [Completion(failing[0].future, Some(error))];
      failing := failing[1..];
    }

    /** `_complete` for the command in flight. */
    method CompleteInflight(error: Option<Error>)
      requires Valid() && !untold && inflight.Some? && (inflight.value.command.CloseCommand? ==> state.Closed?)
      requires error.None? <==> Returned(calls, inflight.value.future)
      requires error.Some? ==> error == first
      modifies `completions, `inflight
      ensures Valid() && inflight.None?
      ensures completions == old(completions) + [Completion(old(inflight.value.future), error)]
    {
      hide HistoryOk, QueueOk, FuturesOk, LedgerOk, MachineOk, CloseCalled, Frontier, Delivered, DeliveredTail,
        Returned;
      InflightLeaves(failing, commands, inflight.value, arena, published, publishedTail, admitted, state, closePending,
                     CloseCalled(calls));
      SettleInflight(completions, inflight.value, failing, commands, nextFuture, error);
      SettleKeepsLedger(calls, admitted, completions, inflight.value, failing + commands, first, target, error);
      completions := completions + [Completion(inflight.value.future, error)];
      inflight := None;
    }

    /** The first lock section of `_record_failure`: the error is latched unless an earlier one already is, and the
      * queue is emptied. */
    method Latched(error: Error, closeFailed: bool) returns (latched: Error)
      requires Valid() && raising && !untold && failing == [] && !state.Closed?
      requires FailureOf(state).None? ==> first == Some(error)
      requires closeFailed == IsRunning(inflight) && (closeFailed ==> state.Closing?)
      requires !closeFailed ==> PrepareCommand in admitted
      modifies `state, `commands, `failing, `raising
      ensures Valid() && !raising && failing == old(commands) && commands == []
      ensures FailureOf(state) == Some(latched) == first
      ensures state == Transition(old(state), if closeFailed then CloseFailed(error) else CommandFailed(error)).state
      ensures closeFailed ==> state.Closed?
      ensures !closeFailed ==> !state.Closed? && (state.Closing? <==> old(state).Closing?)
    {
      hide HistoryOk, QueueOk, FuturesOk, LedgerOk, MachineOk, CloseCalled, Frontier, Delivered, DeliveredTail,
        Transition;
      FailureMoves(state, error, closeFailed);
      FailureIsFirst(calls, arena, published, publishedTail, admitted, state, first, raising);
      FailureKeepsQueue(commands, inflight, arena, published, publishedTail, admitted, state, closePending,
                        CloseCalled(calls), error, closeFailed);
      FailureKeepsHistory(calls, arena, published, publishedTail, admitted, state, first, error, closeFailed);
      FailureKeepsFutures(completions, inflight, commands, nextFuture);
      FailureKeepsMachine(state, if closeFailed then CloseFailed(error) else CommandFailed(error), calls, admitted);
      assert [] + commands == commands + [];
      state := Transition(state, if closeFailed then CloseFailed(error) else CommandFailed(error)).state;
      if FailureOf(state).None? {
        assert false;  // both events latch a failure in every state
      }
      latched := FailureOf(state).value;
      failing := commands;
      commands := [];
      raising := false;
    }

    /** `_record_failure`: every command waiting at that moment fails with the latched error, in order, but a close,
      * which stays on the queue. */
    method RecordFailure(error: Error, closeFailed: bool) returns (latched: Error)
      requires Valid() && raising && !untold && failing == [] && !state.Closed?
      requires FailureOf(state).None? ==> first == Some(error)
      requires closeFailed == IsRunning(inflight) && (closeFailed ==> state.Closing?)
      requires !closeFailed ==> PrepareCommand in admitted
      modifies `published, `publishedTail, `state, `commands, `closePending, `nextFuture, `admitted,
               `failing, `raising, `completions
      ensures Valid() && !raising && failing == []
      ensures FailureOf(state) == Some(latched) == first
      ensures completions == old(completions) + FailedWith(old(commands), latched)
      ensures KeptClose(old(commands)) <= commands
      ensures closeFailed <==> state.Closed?
      ensures GrewOnly(old(state), old(admitted), state, admitted)
    {
      hide HistoryOk, QueueOk, FuturesOk, LedgerOk, MachineOk, CloseCalled, Frontier, Delivered, DeliveredTail,
        GrewFrom, Transition;
      FailureMoves(state, error, closeFailed);
      latched := Latched(error, closeFailed);
      while failing != []
        invariant Valid() && !raising
        invariant FailureOf(state) == Some(latched) == first
        invariant closeFailed <==> state.Closed?
        invariant completions + FailedWith(failing, latched) == old(completions) + FailedWith(old(commands), latched)
        invariant KeptClose(old(commands)) <= KeptClose(failing) + commands
        invariant GrewOnly(old(state), old(admitted), state, admitted)
        decreases |failing|
      {
        FailNext(latched);
      }
    }

    /** The way there from a call that raised, on which the producer may still act. */
    method RecordRaised(error: Error, closeFailed: bool) returns (latched: Error)
      requires Valid() && raising && !untold && failing == [] && !state.Closed?
      requires FailureOf(state).None? ==> first == Some(error)
      requires closeFailed == IsRunning(inflight) && (closeFailed ==> state.Closing?)
      requires !closeFailed ==> PrepareCommand in admitted
      modifies `published, `publishedTail, `state, `commands, `closePending, `nextFuture, `admitted,
               `failing, `raising, `completions
      ensures Valid() && !raising && failing == []
      ensures FailureOf(state) == Some(latched) == first
      ensures |completions| >= |old(completions)|
      ensures closeFailed <==> state.Closed?
      ensures GrewOnly(old(state), old(admitted), state, admitted)
    {
      hide HistoryOk, QueueOk, FuturesOk, LedgerOk, MachineOk, CloseCalled, Frontier, Delivered, DeliveredTail,
        GrewFrom, Transition, FailedWith, KeptClose;
      ghost var before := View();
      Interfere();
      WorkerRelies(before, View());
      latched := RecordFailure(error, closeFailed);
    }

    /** One turn of its loop over the commands taken off the queue: each fails, but a close goes back on. */
    method FailNext(latched: Error)
      requires Valid() && failing != [] && first == Some(latched)
      modifies `published, `publishedTail, `state, `commands, `closePending, `nextFuture, `admitted,
               `failing, `completions
      ensures Valid() && |failing| < |old(failing)|
      ensures FailureOf(state) == old(FailureOf(state)) && (state.Closed? <==> old(state.Closed?))
      ensures completions + FailedWith(failing, latched) == old(completions) + FailedWith(old(failing), latched)
      ensures KeptClose(old(failing)) + old(commands) <= KeptClose(failing) + commands
      ensures GrewOnly(old(state), old(admitted), state, admitted)
    {
      hide HistoryOk, QueueOk, FuturesOk, LedgerOk, MachineOk, CloseCalled, Frontier, Delivered, DeliveredTail,
        GrewFrom;
      ghost var before := View();
      Interfere();
      WorkerRelies(before, View());
      HeadLeaves(failing, commands, inflight, arena, published, publishedTail, admitted, state, closePending,
                 CloseCalled(calls));
      if failing[0].command.CloseCommand? {
        // with self._lock
        PutBack(completions, inflight, failing, commands, nextFuture);
        assert [] + (failing + commands) == failing + commands;
        commands := failing + commands;
        failing := [];
      } else {
        CompleteFailing(latched);
      }
    }

    /** `_run_idle`: with nothing queued, the next append there is goes out if reading is under way. */
    method RunIdle()
      requires Steady() && inflight.None? && !state.Closed? && !CloseCalled(calls)
      modifies `published, `publishedTail, `state, `commands, `closePending, `nextFuture, `admitted,
               `written, `writtenTail, `asked, `calls, `first, `raising, `failing, `completions
      ensures Valid() && !raising && !untold && failing == [] && !state.Closed?
      ensures CaughtUp()
      ensures !ReadingUnderWay(old(calls), old(admitted), FailureOf(old(state)).Some?) ==> calls == old(calls)
      ensures ReadingUnderWay(old(calls), old(admitted), FailureOf(old(state)).Some?) ==>
        IdleTurn(old(calls), calls, arena, chunkRecords, old(written), old(writtenTail), old(published), old(publishedTail),
                 target)
      ensures ReadingUnderWay(old(calls), old(admitted), FailureOf(old(state)).Some?)
        && old(written < published || writtenTail != publishedTail)
        ==> |calls| == |old(calls)| + 1
      ensures |completions| >= |old(completions)|
      ensures GrewOnly(old(state), old(admitted), state, admitted)
    {
      hide HistoryOk, QueueOk, FuturesOk, LedgerOk, MachineOk, GrewFrom, Frontier, Delivered, DeliveredTail, DrainMade,
        Transition, IdleTurn, Behind;
      // with self._lock
      var failed := FailureOf(state).Some?;
      var ready := state.Reading?;
      ghost var before := View();
      CloseMeansClosing(failing, commands, inflight, arena, published, publishedTail, admitted, state, closePending,
                        CloseCalled(calls));
      MachineReads(state, calls, admitted);
      Interfere();
      WorkerRelies(before, View());
      if failed || !ready {
        return;  // the worker waits to be woken
      }
      FailureIsFirst(calls, arena, published, publishedTail, admitted, state, first, raising);
      IdleGrew(before, View());
      var error := DrainIdle(before.published, before.publishedTail);
      if error.Some? {
        var _ := RecordRaised(error.value, false);
      }
    }

    /** Its drain, some time after this frontier was published. */
    method DrainIdle(ghost published0: nat, ghost publishedTail0: bytes) returns (error: Option<Error>)
      requires Steady() && first.None? && !CloseCalled(calls) && !state.Closed? && PrepareCommand in admitted
      requires ReadBegun(calls)
      requires Behind(published0, publishedTail0, published, publishedTail)
      requires written == published0 ==> writtenTail <= publishedTail0
      modifies `published, `publishedTail, `state, `commands, `closePending, `nextFuture, `admitted,
               `written, `writtenTail, `asked, `calls, `first, `raising
      ensures Valid() && CaughtUp() && !CloseCalled(calls) && !state.Closed?
      ensures raising == error.Some? && first == error
      ensures IdleTurn(old(calls), calls, arena, chunkRecords, old(written), old(writtenTail), published0, publishedTail0, target)
      ensures old(written) < published0 || (old(written) == published0 && old(writtenTail) != publishedTail0) ==>
        |calls| == |old(calls)| + 1
      ensures FailureOf(state) == FailureOf(old(state)) && PrepareCommand in admitted
      ensures GrewOnly(old(state), old(admitted), state, admitted)
    {
      hide HistoryOk, QueueOk, FuturesOk, LedgerOk, MachineOk, GrewFrom, Frontier, Delivered, DeliveredTail, DrainMade,
        Transition, IdleTurn, Behind;
      ghost var before := View();
      var wrote;
      wrote, error := DrainData(None, None, []);
      WorkerRelies(before, View());
      IdleTurnIs(old(calls), calls, arena, chunkRecords, old(written), old(writtenTail), published0, publishedTail0,
                 before.published, before.publishedTail, target, error);
      if old(written) < published0 || (old(written) == published0 && old(writtenTail) != publishedTail0) {
        IdleTurnAppends(old(calls), calls, arena, chunkRecords, old(written), old(writtenTail), published0, publishedTail0,
                        target);
      }
    }

    /** One call of the target operation of the command in flight. */
    method CallOperation(command: Command, drained: bool) returns (error: Option<Error>)
      requires Valid() && !raising && !untold && !CloseCalled(calls)
      requires inflight.Some? && inflight.value.command == command && NotCalled(calls, inflight.value.future)
      requires first.None? || (command.CloseCommand? && !drained)
      requires Ready(calls, command, drained, published, publishedTail)
      modifies `asked, `calls, `first, `raising, `untold
      ensures Valid() && (CloseCalled(calls) ==> command.CloseCommand?)
      ensures error == target(|old(calls)|)
      ensures calls == old(calls) + [Operation(inflight.value.future, command, drained, error.None?)]
      ensures untold == error.None? && raising == error.Some? && first == (if old(first).Some? then old(first) else error)
      ensures old(CaughtUp()) ==> CaughtUp()
    {
      hide HistoryOk, QueueOk, FuturesOk, LedgerOk, MachineOk, NotCalled, Delivered, DeliveredTail, SliceAt, Reached,
        Ready;
      error := target(asked);
      ghost var call := Operation(inflight.value.future, command, drained, error.None?);
      OperationKeeps(calls, call, arena, published, publishedTail, admitted, state, first, error, failing, commands,
                     inflight.value, closePending, completions, target);
      DeliveredNext(calls, call);
      asked := asked + 1;
      calls := calls + [call];
      first, raising, untold := if first.None? then error else first, error.Some?, error.None?;
    }

    /** Draining for a command hands over its whole frontier before the operation is called. */
    method DrainAndCall(command: Command) returns (error: Option<Error>)
      requires Steady() && inflight.Some? && inflight.value.command == command && first.None? && !CloseCalled(calls)
      requires command.HasFrontier() && NotCalled(calls, inflight.value.future)
      modifies `published, `publishedTail, `state, `commands, `closePending, `nextFuture, `admitted,
               `written, `writtenTail, `asked, `calls, `first, `raising, `untold
      ensures Valid() && GrewFrom(old(View()), View()) && (CloseCalled(calls) ==> command.CloseCommand?)
      ensures Executed(old(calls), calls, inflight.value, true, arena, chunkRecords, old(written), old(writtenTail), target,
                       error)
      ensures first == error && raising == error.Some?
      ensures CaughtUp() && untold == error.None?
    {
      hide HistoryOk, QueueOk, FuturesOk, LedgerOk, MachineOk, CloseCalled, Frontier, SliceAt, Delivered, DeliveredTail,
        Reached, GrewFrom, Executed, DrainMade, NotCalled, FrontierOf;
      CloseMeansClosing(failing, commands, inflight, arena, published, publishedTail, admitted, state, closePending,
                        CloseCalled(calls));
      CommandFrontier(command, arena, published, publishedTail, state);
      InflightFrontier(calls, admitted, completions, inflight.value, failing + commands, first, target);
      ghost var pending := inflight.value;
      var wrote;
      wrote, error := DrainData(Some(pending.future), Some(command.highWater), command.tail);
      ghost var made := calls;
      FrontierWithin(arena, command.highWater, command.tail);
      if error.Some? {
        RaisedDrain(old(calls), made, pending, arena, chunkRecords, old(written), old(writtenTail), target, error);
        return;
      }
      CloseMeansClosing(failing, commands, inflight, arena, published, publishedTail, admitted, state, closePending,
                        CloseCalled(calls));
      CommandFrontier(command, arena, published, publishedTail, state);
      ghost var drained := View();
      StandsStill(drained);
      DrainedNotCalled(old(calls), made, DrainFor(pending, arena, chunkRecords), old(written), old(writtenTail), target, None,
                       pending.future);
      error := CallOperation(command, true);
      DrainedAndCalled(old(calls), made, pending, arena, chunkRecords, old(written), old(writtenTail), target);
      GrewOn(old(View()), drained, View());
    }

    /** `_execute`: the drain of a command, if it has one, and then its operation, once; a call that raises is the last. */
    method Execute(command: Command, ghost pending: Pending) returns (error: Option<Error>)
      requires Steady() && inflight == Some(pending) && pending.command == command && !CloseCalled(calls)
      requires NotCalled(calls, pending.future)
      requires first.None? || command.CloseCommand?
      requires command.CloseCommand? ==> state.Closing?
      modifies `published, `publishedTail, `state, `commands, `closePending, `nextFuture, `admitted,
               `written, `writtenTail, `asked, `calls, `first, `raising, `untold
      ensures Valid() && GrewFrom(old(View()), View()) && (CloseCalled(calls) ==> command.CloseCommand?)
      ensures Executed(old(calls), calls, pending, Drains(old(state), command), arena, chunkRecords, old(written),
                       old(writtenTail), target, error)
      ensures raising == error.Some? && first == (if old(first).Some? then old(first) else error)
      ensures CaughtUp() && untold == error.None?
    {
      hide HistoryOk, QueueOk, FuturesOk, LedgerOk, MachineOk, CloseCalled, Delivered, DeliveredTail, Frontier,
        GrewFrom, Executed, NotCalled;
      ghost var before := View();
      StandsStill(before);
      JustCalled(calls, pending, arena, chunkRecords, written, writtenTail, target);
      match command {
        case PrepareCommand => error := CallOperation(command, false);
        case PrepareLegCommand(_, _) => error := CallOperation(command, false);
        case ReadBeginCommand(_) => error := CallOperation(command, false);
        case CheckpointCommand(_, _) => error := DrainAndCall(command);
        case InterruptCommand(_, _) => error := DrainAndCall(command);
        case SealCommand(_, _, _) => error := DrainAndCall(command);
        case PublishPrefixCommand(_, _) => error := DrainAndCall(command);
        case CloseCommand(_, _) =>
          // with self._lock
          var now := state;
          FailureIsFirst(calls, arena, published, publishedTail, admitted, state, first, raising);
          Interfere();
          ghost var relied := View();
          StandsStill(relied);
          if now.Closing? && now.failure.None? && now.drain {
            error := DrainAndCall(command);
          } else {
            error := CallOperation(command, false);
          }
          GrewOn(before, relied, View());
      }
    }

    /** The lock section after a command that succeeded. */
    method Succeeded()
      requires Valid() && CaughtUp() && !raising && untold && failing == [] && inflight.Some?
      requires inflight.value.command.CloseCommand? ==> state.Closing?
      modifies `state, `untold
      ensures Steady() && state == Transition(old(state), SuccessEvent(inflight.value.command)).state
      ensures inflight.value.command.CloseCommand? ==> state.Closed?
      ensures !inflight.value.command.CloseCommand? && !old(state.Closed?) ==> !state.Closed?
      ensures Stage(old(state)) <= Stage(state)
      ensures old(state).Closing? && !inflight.value.command.CloseCommand? ==>
        state == old(state).(drain := if inflight.value.command.ReadBeginCommand? then FailureOf(old(state)).None?
                                      else old(state).drain)
    {
      hide HistoryOk, QueueOk, FuturesOk, LedgerOk, MachineOk, CloseCalled, Delivered, DeliveredTail, Frontier,
        Transition;
      SuccessMoves(state, inflight.value.command);
      SuccessKeepsQueue(commands, inflight.value, arena, published, publishedTail, admitted, state, closePending,
                        CloseCalled(calls));
      SuccessKeepsHistory(calls, arena, published, publishedTail, admitted, state, first, inflight.value.command);
      InflightAdmitted(failing, commands, inflight.value, arena, published, publishedTail, admitted, state, closePending,
                       CloseCalled(calls));
      TellKeepsMachine(state, calls, admitted);
      state := Transition(state, SuccessEvent(inflight.value.command)).state;
      untold := false;
    }

    /** `_run_command`: true when the worker is done. After a failure nothing but a close is called. The command's own
      * future is the last to be settled. */
    method RunCommand(pending: Pending) returns (done: bool)
      requires Steady() && inflight == Some(pending) && !state.Closed? && !CloseCalled(calls)
      requires NotCalled(calls, pending.future)
      requires pending.command.CloseCommand? ==> state.Closing?
      modifies `published, `publishedTail, `state, `commands, `closePending, `nextFuture, `admitted,
               `written, `writtenTail, `asked, `calls, `first, `raising, `untold, `inflight, `failing, `completions
      ensures Valid() && !raising && !untold && failing == [] && inflight.None?
      ensures done == pending.command.CloseCommand? == state.Closed?
      ensures CaughtUp()
      ensures FailureOf(old(state)).Some? && !pending.command.CloseCommand? ==> calls == old(calls)
      ensures FailureOf(old(state)).None? || pending.command.CloseCommand? ==>
        exists error :: Executed(old(calls), calls, pending, Drains(old(state), pending.command), arena, chunkRecords,
                                 old(written), old(writtenTail), target, error)
      ensures |completions| > |old(completions)| && completions[|completions| - 1].future == pending.future
      ensures GrewOnly(old(state), old(admitted), state, admitted)
    {
      hide HistoryOk, QueueOk, FuturesOk, LedgerOk, MachineOk, CloseCalled, Delivered, DeliveredTail, Frontier,
        GrewFrom, Transition, AdmissionsFit, CommandFits, Stage, Executed, NotCalled, Returned;
      var command := pending.command;
      done := command.CloseCommand?;
      // with self._lock
      var failure := FailureOf(state);
      FailureIsFirst(calls, arena, published, publishedTail, admitted, state, first, raising);
      CloseMeansClosing(failing, commands, inflight, arena, published, publishedTail, admitted, state, closePending,
                        CloseCalled(calls));
      ghost var before := View();
      Interfere();
      WorkerRelies(before, View());
      if failure.Some? && !command.CloseCommand? {
        NeverCalledNeverReturned(calls, pending.future);
        CompleteInflight(failure);
        return;
      }
      ghost var drains := Drains(state, command);
      assert drains == Drains(old(state), command);
      SettleExecuted(pending);
    }

    /** Its execution, and the settling of its future by how that came out. */
    method SettleExecuted(pending: Pending)
      requires Steady() && inflight == Some(pending) && !state.Closed? && !CloseCalled(calls)
      requires NotCalled(calls, pending.future)
      requires first.None? || pending.command.CloseCommand?
      requires pending.command.CloseCommand? ==> state.Closing?
      requires !pending.command.CloseCommand? ==> PrepareCommand in admitted
      modifies `published, `publishedTail, `state, `commands, `closePending, `nextFuture, `admitted,
               `written, `writtenTail, `asked, `calls, `first, `raising, `untold, `inflight, `failing, `completions
      ensures Valid() && !raising && !untold && failing == [] && inflight.None?
      ensures state.Closed? == pending.command.CloseCommand?
      ensures CaughtUp()
      ensures exists error :: Executed(old(calls), calls, pending, Drains(old(state), pending.command), arena, chunkRecords,
                                       old(written), old(writtenTail), target, error)
      ensures |completions| > |old(completions)| && completions[|completions| - 1].future == pending.future
      ensures GrewOnly(old(state), old(admitted), state, admitted)
    {
      hide HistoryOk, QueueOk, FuturesOk, LedgerOk, MachineOk, CloseCalled, Delivered, DeliveredTail, Frontier,
        GrewFrom, Transition, AdmissionsFit, CommandFits, Stage, Executed, NotCalled, Returned, Drains, Served;
      FailureIsFirst(calls, arena, published, publishedTail, admitted, state, first, raising);
      BrokenIsFirst(calls, arena, published, publishedTail, admitted, state, first, raising);
      ghost var before := View();
      var error := Execute(pending.command, pending);
      WorkerRelies(before, View());
      ghost var drains := Drains(old(state), pending.command);
      ExecutionServes(old(calls), calls, pending, drains, arena, chunkRecords, old(written), old(writtenTail), target, error);
      ServedReturns(old(calls), calls, pending, drains);
      FailureIsFirst(calls, arena, published, publishedTail, admitted, state, first, raising);
      if error.Some? {
        SettleFailure(error.value);
      } else {
        SettleSuccess();
      }
    }

    /** The failure is recorded, and the future fails with what is latched then. */
    method SettleFailure(error: Error)
      requires Valid() && CaughtUp() && raising && !untold && failing == [] && inflight.Some? && !state.Closed?
      requires inflight.value.command.CloseCommand? ==> state.Closing?
      requires !inflight.value.command.CloseCommand? ==> PrepareCommand in admitted
      requires FailureOf(state).None? ==> first == Some(error)
      requires !Returned(calls, inflight.value.future)
      modifies `published, `publishedTail, `state, `commands, `closePending, `nextFuture, `admitted,
               `inflight, `failing, `raising, `completions
      ensures Steady() && inflight.None?
      ensures state.Closed? == old(inflight.value.command.CloseCommand?)
      ensures |completions| > |old(completions)|
      ensures completions[|completions| - 1] == Completion(old(inflight.value.future), first)
      ensures GrewOnly(old(state), old(admitted), state, admitted)
    {
      hide HistoryOk, QueueOk, FuturesOk, LedgerOk, MachineOk, CloseCalled, Delivered, DeliveredTail, Frontier,
        GrewFrom, Transition, Returned, FailedWith, KeptClose;
      var latched := RecordRaised(error, inflight.value.command.CloseCommand?);
      CompleteInflight(Some(latched));
    }

    /** The machine moves on, and the future is settled by what the machine then says. */
    method SettleSuccess()
      requires Valid() && CaughtUp() && !raising && untold && failing == [] && inflight.Some? && !state.Closed?
      requires inflight.value.command.CloseCommand? ==> state.Closing?
      requires Returned(calls, inflight.value.future) <==> first.None?
      modifies `published, `publishedTail, `state, `commands, `closePending, `nextFuture, `admitted,
               `untold, `inflight, `completions
      ensures Steady() && inflight.None?
      ensures state.Closed? == old(inflight.value.command.CloseCommand?)
      ensures completions == old(completions) + [Completion(old(inflight.value.future), first)]
      ensures GrewOnly(old(state), old(admitted), state, admitted)
    {
      hide HistoryOk, QueueOk, FuturesOk, LedgerOk, MachineOk, CloseCalled, Delivered, DeliveredTail, Frontier,
        GrewFrom, Transition, Returned;
      ghost var before := View();
      Interfere();
      WorkerRelies(before, View());
      Succeeded();
      FailureIsFirst(calls, arena, published, publishedTail, admitted, state, first, raising);
      var failure := FailureOf(state);
      before := View();
      Interfere();
      WorkerRelies(before, View());
      CompleteInflight(failure);
    }

    /** One turn of the loop, with the producer at work before and after. */
    method Turn() returns (exited: bool)
      requires Steady() && inflight.None? && !state.Closed?
      modifies `published, `publishedTail, `state, `commands, `closePending, `nextFuture, `admitted,
               `written, `writtenTail, `asked, `calls, `first, `raising, `untold, `inflight, `failing, `completions
      ensures Steady() && inflight.None?
      ensures exited <==> state.Closed?
      ensures |completions| > |old(completions)| || |completions| == |old(completions)| == |old(admitted)|
      ensures exited ==> EndsWithClose(calls, admitted)
      ensures GrewOnly(old(state), old(admitted), state, admitted)
    {
      hide HistoryOk, QueueOk, FuturesOk, LedgerOk, MachineOk, CloseCalled, Delivered, DeliveredTail, Frontier,
        GrewFrom, Executed, NotCalled, EndsWithClose, Drains, IdleTurn, Served;
      FuturesCount(completions, inflight, failing, commands, nextFuture);
      exited := false;
      ghost var before := View();
      Interfere();
      WorkerRelies(before, View());
      ghost var waiting := commands;
      var pending := NextCommand();
      assert pending.None? ==> waiting == [];
      before := View();
      Interfere();
      WorkerRelies(before, View());
      if pending.None? {
        RunIdle();
      } else {
        InflightFrontier(calls, admitted, completions, pending.value, failing + commands, first, target);
        ghost var called, numbered, noted, notedTail := calls, admitted, written, writtenTail;
        ghost var drains := Drains(state, pending.value.command);
        exited := RunCommand(pending.value);
        if exited {
          ghost var error :| Executed(called, calls, pending.value, drains, arena, chunkRecords, noted, notedTail, target, error);
          ExecutionServes(called, calls, pending.value, drains, arena, chunkRecords, noted, notedTail, target, error);
          ClosedByCommand(called, calls, pending.value, drains, numbered, admitted);
        }
      }
    }

    /** `_run`, for any number of turns. Each turn settles a command unless none is outstanding, so a closing worker
      * exits within the turns its queue is long. A worker that exits leaves an empty queue behind, every future ever
      * issued settled exactly once, and as its last call the close, or the append that raised when draining for it. If
      * nothing raised, it has called exactly the operations admitted, in their order, and all returned. */
    method Run(turns: nat) returns (exited: bool)
      requires Steady() && inflight.None? && !state.Closed?
      modifies `published, `publishedTail, `state, `commands, `closePending, `nextFuture, `admitted,
               `written, `writtenTail, `asked, `calls, `first, `raising, `untold, `inflight, `failing, `completions
      ensures Steady() && inflight.None?
      ensures exited <==> state.Closed?
      ensures exited ==> commands == []
      ensures exited ==> SettledOnce(completions, |admitted|)
      ensures exited ==> EndsWithClose(calls, admitted)
      ensures exited && first.None? ==> Operations(calls) == admitted
      ensures exited && first.None? ==> forall future: nat :: future < |admitted| ==> Returned(calls, future)
      ensures !exited ==> |completions| >= Min(|old(completions)| + turns, |old(admitted)|)
      ensures old(state).Closing? && turns >= |old(commands)| ==> exited
    {
      hide HistoryOk, QueueOk, FuturesOk, LedgerOk, MachineOk, CloseCalled, Delivered, DeliveredTail, Frontier,
        Returned, EndsWithClose, Settled;
      exited := false;
      FuturesCount(completions, inflight, failing, commands, nextFuture);
      for turn := 0 to turns
        invariant Steady()
        invariant inflight.None? && !state.Closed?
        invariant |completions| >= Min(|old(completions)| + turn, |old(admitted)|)
        invariant GrewOnly(old(state), old(admitted), state, admitted)
      {
        exited := Turn();
        if exited {
          break;
        }
      }
      CloseMeansClosing(failing, commands, inflight, arena, published, publishedTail, admitted, state, closePending,
                        CloseCalled(calls));
      FuturesCount(completions, inflight, failing, commands, nextFuture);
      AllSettled(completions, nextFuture);
      ClosingWaits(failing, commands, arena, published, publishedTail, admitted, state, closePending, CloseCalled(calls));
      if exited && first.None? {
        assert failing + commands == [];
        CleanRunServesAll(calls, admitted, completions, first, target);
      }
    }
  }

  lemma SlicesOf(arena: bytes, start: nat, end: nat, tail: bytes)
    requires start <= end && Frontier(arena, end, tail)
    ensures end <= |arena| && SliceAt(arena, start, arena[start..end])
    ensures SliceAt(arena, end, tail) && |tail| < RECORD_SIZE
  {}

  lemma PublishedGrew(before: Shared, after: Shared)
    requires GrewFrom(before, after)
    ensures before.published <= after.published
    ensures before.published == after.published ==> before.publishedTail <= after.publishedTail
    ensures before.admitted <= after.admitted
  {}

  lemma NothingCalled(arena: bytes, target: nat -> Option<Error>)
    ensures Frontier(arena, 0, []) && Delivered([]) == [] == arena[..0] && DeliveredTail([]) == [] && !CloseCalled([])
    ensures HistoryOk([], arena, 0, [], [], Constructed, None, false)
    ensures LedgerOk([], [], [], None, [] + [], None, target)
    ensures MachineOk(Constructed, [], false, [])
  {}

  lemma HistoryAdmits(
    calls: seq<Call>, arena: bytes, published: nat, publishedTail: bytes, admitted: seq<Command>, state: State,
    first: Option<Error>, raising: bool)
    requires HistoryOk(calls, arena, published, publishedTail, admitted, state, first, raising)
    ensures CallsAdmitted(calls, admitted)
  {}

  lemma InflightAdmitted(
    failing: seq<Pending>, commands: seq<Pending>, inflight: Pending, arena: bytes, published: nat, publishedTail: bytes,
    admitted: seq<Command>, state: State, closePending: Option<nat>, closeCalled: bool)
    requires QueueOk(failing, commands, Some(inflight), arena, published, publishedTail, admitted, state, closePending,
                     closeCalled)
    ensures inflight.command in admitted
  {}

  lemma MachineReads(state: State, calls: seq<Call>, admitted: seq<Command>)
    requires MachineOk(state, calls, false, admitted)
    ensures state.Reading? <==> ReadingUnderWay(calls, admitted, FailureOf(state).Some?)
    ensures state.Reading? ==> ReadBegun(calls)
  {
    ReadingExactly(state, calls, admitted);
  }

  /** Only the command in flight can have been the close that is called. */
  lemma CallKeepsQueue(
    failing: seq<Pending>, commands: seq<Pending>, inflight: Pending, arena: bytes, published: nat, publishedTail: bytes,
    admitted: seq<Command>, state: State, closePending: Option<nat>, before: bool, closeCalled: bool)
    requires QueueOk(failing, commands, Some(inflight), arena, published, publishedTail, admitted, state, closePending, before)
    requires closeCalled ==> inflight.command.CloseCommand?
    ensures QueueOk(failing, commands, Some(inflight), arena, published, publishedTail, admitted, state, closePending,
                     closeCalled)
  {
    hide AdmissionsFit, WriterHistory.QueueFits, CloseWaitsLast, CommandFits;
  }

  /** An operation that is called keeps the invariant. */
  lemma OperationKeeps(
    calls: seq<Call>, call: Call, arena: bytes, published: nat, publishedTail: bytes, admitted: seq<Command>, state: State,
    first: Option<Error>, error: Option<Error>, failing: seq<Pending>, commands: seq<Pending>, inflight: Pending,
    closePending: Option<nat>, completions: seq<Completion>, target: nat -> Option<Error>)
    requires HistoryOk(calls, arena, published, publishedTail, admitted, state, first, false)
    requires QueueOk(failing, commands, Some(inflight), arena, published, publishedTail, admitted, state, closePending,
                     CloseCalled(calls))
    requires LedgerOk(calls, admitted, completions, Some(inflight), failing + commands, first, target)
    requires MachineOk(state, calls, false, admitted)
    requires Frontier(arena, published, publishedTail) && |Delivered(calls)| <= published
    requires Delivered(calls) == arena[..|Delivered(calls)|]
    requires call.Operation? && call.command == inflight.command && call.future == inflight.future
    requires NotCalled(calls, inflight.future) && !CloseCalled(calls) && (call.ok <==> error.None?)
    requires first.None? || (call.command.CloseCommand? && !call.drained)
    requires Ready(calls, call.command, call.drained, published, publishedTail)
    requires error == target(|calls|)
    ensures var all, raised := calls + [call], if first.None? then error else first;
      && HistoryOk(all, arena, published, publishedTail, admitted, state, raised, !call.ok)
      && QueueOk(failing, commands, Some(inflight), arena, published, publishedTail, admitted, state, closePending,
                 CloseCalled(all))
      && LedgerOk(all, admitted, completions, Some(inflight), failing + commands, raised, target)
      && MachineOk(state, all, call.ok, admitted)
  {
    hide HistoryOk, QueueOk, LedgerOk, MachineOk, NotCalled, Delivered, Ready, SliceAt;
    FrontierWithin(arena, published, publishedTail);
    InflightAdmitted(failing, commands, inflight, arena, published, publishedTail, admitted, state, closePending,
                     CloseCalled(calls));
    CallKeepsQueue(failing, commands, inflight, arena, published, publishedTail, admitted, state, closePending,
                   CloseCalled(calls), CloseCalled(calls + [call]));
    OperationFits(calls, call, arena, published, publishedTail);
    CallKeepsHistory(calls, call, arena, published, publishedTail, admitted, state, first,
                     if error.Some? then error.value else "");
    CallKeepsLedger(calls, call, admitted, completions, Some(inflight), failing + commands, first, target,
                    if first.None? then error else first);
    CallKeepsMachine(state, calls, admitted, call);
  }

  lemma NothingQueued(arena: bytes)
    ensures QueueOk([], [], None, arena, 0, [], [], Constructed, None, false)
    ensures FuturesOk([], None, [], [], 0)
  {}

  lemma IdleGrew(before: Shared, after: Shared)
    requires GrewFrom(before, after)
    ensures Behind(before.published, before.publishedTail, after.published, after.publishedTail)
  {}

  lemma BrokenIsFirst(
    calls: seq<Call>, arena: bytes, published: nat, publishedTail: bytes, admitted: seq<Command>, state: State,
    first: Option<Error>, raising: bool)
    requires HistoryOk(calls, arena, published, publishedTail, admitted, state, first, raising)
    ensures Broken(calls) <==> first.Some?
  {}

  lemma ClosingWaits(
    failing: seq<Pending>, commands: seq<Pending>, arena: bytes, published: nat, publishedTail: bytes,
    admitted: seq<Command>, state: State, closePending: Option<nat>, closeCalled: bool)
    requires QueueOk(failing, commands, None, arena, published, publishedTail, admitted, state, closePending, closeCalled)
    ensures state.Closing? ==> |failing| + |commands| > 0
  {
    assert |failing + commands| == |failing| + |commands|;
  }

  /** The next append of a drain ends at a frontier. */
  lemma NextFits(arena: bytes, start: nat, lastTail: bytes, frontier: nat, chunkRecords: nat, frontierTail: bytes)
    requires start <= frontier && Frontier(arena, start, lastTail) && Frontier(arena, frontier, frontierTail)
    requires chunkRecords > 0
    ensures var end := Min(frontier, start + chunkRecords * RECORD_SIZE);
      && start <= end <= frontier <= |arena| && (end - start) % RECORD_SIZE == 0
      && Frontier(arena, end, if end == frontier then frontierTail else [])
  {
    if start < frontier {
      NextChunk(arena, start, lastTail, frontier, chunkRecords, frontierTail);
    }
  }

  /** A frontier noted under the lock, against what the worker has handed over. */
  lemma LockedFrontier(
    arena: bytes, limit: Option<nat>, tail: bytes, published: nat, publishedTail: bytes, written: nat, writtenTail: bytes)
    requires Frontier(arena, published, publishedTail) && written <= published
    requires written == published ==> writtenTail <= publishedTail
    requires limit.Some? ==> Frontier(arena, limit.value, tail) && Behind(limit.value, tail, published, publishedTail)
    ensures var target, frontierTail :=
        if limit.None? then published else Min(limit.value, published), if limit.None? then publishedTail else tail;
      && target <= |arena| && Frontier(arena, target, frontierTail)
      && Behind(target, frontierTail, published, publishedTail)
      && (limit.Some? ==> target == limit.value)
      && (limit.None? && written == target ==> writtenTail <= frontierTail)
  {}

  /** It still is one after the producer's steps. */
  lemma LockedStill(before: Shared, after: Shared, cause: Option<nat>, frontier: nat, tail: bytes)
    requires GrewFrom(before, after) && Behind(frontier, tail, before.published, before.publishedTail)
    requires cause.Some? ==> FrontierOf(cause.value, frontier, tail, before.admitted)
    ensures Behind(frontier, tail, after.published, after.publishedTail)
    ensures frontier <= after.published && (frontier == after.published ==> tail <= after.publishedTail)
    ensures cause.Some? ==> FrontierOf(cause.value, frontier, tail, after.admitted)
  {}

  /** What the worker learnt in one lock section and may rely on in the next. */
  lemma WorkerRelies(before: Shared, after: Shared)
    requires GrewFrom(before, after)
    ensures FailureOf(after.state) == FailureOf(before.state)
    ensures after.state.Closed? ==> before.state.Closed?
    ensures before.state.Closing? ==> after.state == before.state
    ensures before.state.Closed? ==> after.state == before.state && after.commands == before.commands
    ensures forall command :: command in before.admitted ==> command in after.admitted
    ensures before.commands <= after.commands
    ensures GrewOnly(before.state, before.admitted, after.state, after.admitted)
  {
    assert before.admitted == after.admitted[..|before.admitted|];
  }

  lemma CloseMeansClosing(
    failing: seq<Pending>, commands: seq<Pending>, inflight: Option<Pending>,
    arena: bytes, published: nat, publishedTail: bytes, admitted: seq<Command>, state: State,
    closePending: Option<nat>, closeCalled: bool)
    requires QueueOk(failing, commands, inflight, arena, published, publishedTail, admitted, state, closePending, closeCalled)
    ensures AdmissionsFit(admitted, state)
    ensures inflight.Some? ==>
      && CommandFits(inflight.value.command, arena, published, publishedTail, state)
      && inflight.value.command in admitted
    ensures state.Closed? ==> failing == [] && commands == []
    ensures closeCalled ==> IsRunning(inflight) || state.Closed?
  {
    if state.Closed? {
      assert |failing + commands| == |failing| + |commands|;
    }
  }

  lemma FailureIsFirst(
    calls: seq<Call>, arena: bytes, published: nat, publishedTail: bytes, admitted: seq<Command>, state: State,
    first: Option<Error>, raising: bool)
    requires HistoryOk(calls, arena, published, publishedTail, admitted, state, first, raising)
    ensures FailureOf(state).Some? ==> FailureOf(state) == first
    ensures first.Some? && !raising ==> FailureOf(state).Some?
  {}

  /** A finalizing drain ends with everything published handed over. */
  lemma DrainIsComplete(calls: seq<Call>, arena: bytes, published: nat, publishedTail: bytes)
    requires Reached(calls, published, publishedTail) && |Delivered(calls)| <= published <= |arena|
    requires Delivered(calls) == arena[..|Delivered(calls)|]
    ensures Delivered(calls) == arena[..published] && DeliveredTail(calls) == publishedTail
  {}

  lemma NextChunk(
    arena: bytes, start: nat, lastTail: bytes, target: nat, chunkRecords: nat, frontierTail: bytes)
    requires start < target && Frontier(arena, start, lastTail) && chunkRecords > 0 && Frontier(arena, target, frontierTail)
    ensures
      var end := Min(target, start + chunkRecords * RECORD_SIZE);
      && start < end <= target && end % RECORD_SIZE == 0 && (end - start) % RECORD_SIZE == 0
      && Frontier(arena, end, if end == target then frontierTail else [])
      && SliceAt(arena, start, arena[start..end])
  {
    MultipleOf(chunkRecords);
  }

  lemma {:induction false} MultipleOf(count: nat)
    ensures (count * RECORD_SIZE) % RECORD_SIZE == 0
    ensures count > 0 ==> count * RECORD_SIZE >= RECORD_SIZE
  {
    if count > 0 {
      MultipleOf(count - 1);
    }
  }

  lemma ReuseMeansClosing(state: State, request: Request)
    requires Transition(state, request.Event()).directive == ReuseClose
    ensures request.Close? && Stage(state) >= 6
  {}

  lemma IssuedNext(count: nat)
    ensures Issued(count + 1) == Issued(count) + multiset{count}
  {}

  lemma OneWaiting(pending: Pending)
    ensures Waiting([pending]) == multiset{pending.future}
  {
    assert [pending][1..] == [];
  }

  lemma PublicationOpen(state: State)
    ensures Stage(state) > 2 <==> Transition(state, PublishRequested).directive.Reject?
    ensures Stage(state) <= 2 <==> Transition(state, PublishRequested).directive == WriterMachine.Admit
  {}
}
