/** What the writer's state says about its past: which operations have returned and which commands were admitted. Nothing
  * here is said through the machine's transitions, which are proved to keep it. */
module WriterStates {
  import opened Bytes
  import opened WriterHistory
  import opened WriterMachine

  // ----- what has returned

  ghost predicate PrepareReturned(calls: seq<Call>) {
    exists i :: 0 <= i < |calls| && IsPrepare(calls[i]) && calls[i].ok
  }

  ghost predicate FinalReturned(calls: seq<Call>) {
    exists i :: 0 <= i < |calls| && IsFinal(calls[i]) && calls[i].ok
  }

  predicate IsPrepare(call: Call) {
    call.Operation? && call.command.PrepareCommand?
  }

  predicate IsFinal(call: Call) {
    call.Operation? && call.command.Finalizes()
  }

  // ----- what was asked for

  ghost predicate StartAsked(admitted: seq<Command>) {
    PrepareCommand in admitted
  }

  ghost predicate FinalAsked(admitted: seq<Command>) {
    exists i :: 0 <= i < |admitted| && admitted[i].Finalizes()
  }

  ghost predicate CloseAsked(admitted: seq<Command>) {
    exists i :: 0 <= i < |admitted| && admitted[i].CloseCommand?
  }

  /** The state against the calls whose results the machine has been told, and the commands admitted. */
  ghost predicate StateOk(state: State, told: seq<Call>, admitted: seq<Command>) {
    && (state.Closing? || state.Closed? <==> CloseAsked(admitted))
    && match state
       case Constructed => admitted == [] && !PrepareReturned(told) && !ReadBegun(told) && !FinalReturned(told)
       case Preparing =>
         admitted == [PrepareCommand] && !PrepareReturned(told) && !ReadBegun(told) && !FinalReturned(told)
       case Prepared =>
         StartAsked(admitted) && !FinalAsked(admitted) && PrepareReturned(told) && !ReadBegun(told) && !FinalReturned(told)
       case Reading =>
         StartAsked(admitted) && !FinalAsked(admitted) && PrepareReturned(told) && ReadBegun(told) && !FinalReturned(told)
       case Finalizing => StartAsked(admitted) && FinalAsked(admitted) && PrepareReturned(told) && !FinalReturned(told)
       case Finalized => StartAsked(admitted) && FinalAsked(admitted) && PrepareReturned(told) && FinalReturned(told)
       case Failed(_) => StartAsked(admitted)
       case Closing(_, _, startAdmitted) => startAdmitted == StartAsked(admitted)
       case Closed(_, startAdmitted) => startAdmitted == StartAsked(admitted)
  }

  /** A healthy writer that is neither finalizing nor closing is reading exactly if a READ_BEGIN returned and no leg was
    * prepared since. */
  ghost predicate ReadingUnderWay(told: seq<Call>, admitted: seq<Command>, failed: bool) {
    !failed && !FinalAsked(admitted) && !CloseAsked(admitted) && ReadBegun(told)
  }

  lemma ReadingExactly(state: State, told: seq<Call>, admitted: seq<Command>)
    requires StateOk(state, told, admitted)
    ensures state.Reading? <==> ReadingUnderWay(told, admitted, FailureOf(state).Some?)
  {}

  // ----- requests

  /** The answer to a request: what it depends on is what was asked for before, and what has returned. */
  ghost function Verdict(event: Event, told: seq<Call>, admitted: seq<Command>, failed: bool): Directive
    requires !event.IsResult()
  {
    if CloseAsked(admitted) then
      if event.CloseRequested? then ReuseClose
      else if event.StartRequested? && StartAsked(admitted) then if failed then Reject(AlreadyFailed) else Ignore
      else Reject(AlreadyClosed)
    else if failed then if event.CloseRequested? then Admit else Reject(AlreadyFailed)
    else if event.CloseRequested? then Admit
    else if event.StartRequested? then if StartAsked(admitted) then Ignore else Admit
    else if FinalReturned(told) then Reject(AlreadyFinalized)
    else if FinalAsked(admitted) then Reject(if event.FinalizeRequested? then FinalizePending else WhileFinalizing)
    else if event.PublishRequested? then Admit
    else if !StartAsked(admitted) then Reject(NotStarted)
    else if !PrepareReturned(told) then Reject(PreparePending)
    else if event.CheckpointRequested? && !ReadBegun(told) then Reject(ReadPending)
    else Admit
  }

  /** The machine gives this answer. */
  lemma VerdictIs(state: State, event: Event, told: seq<Call>, admitted: seq<Command>)
    requires StateOk(state, told, admitted) && !event.IsResult()
    requires FinalReturned(told) ==> FinalAsked(admitted)
    ensures Transition(state, event).directive == Verdict(event, told, admitted, FailureOf(state).Some?)
  {}

  /** Whether a close requested now is to drain. */
  ghost predicate WillDrain(told: seq<Call>, admitted: seq<Command>, failed: bool) {
    !failed && (FinalAsked(admitted) || ReadBegun(told))
  }

  // ----- what keeps the state right

  function SuccessEvent(command: Command): Event {
    match command
    case PrepareCommand => PrepareSucceeded
    case PrepareLegCommand(_, _) => LegSucceeded
    case ReadBeginCommand(_) => ReadBeginSucceeded
    case CheckpointCommand(_, _) => CheckpointSucceeded
    case InterruptCommand(_, _) => CheckpointSucceeded
    case SealCommand(_, _, _) => FinalizeSucceeded
    case PublishPrefixCommand(_, _) => FinalizeSucceeded
    case CloseCommand(_, _) => CloseSucceeded
  }

  lemma AskedNext(admitted: seq<Command>, command: Command)
    ensures StartAsked(admitted + [command]) <==> StartAsked(admitted) || command.PrepareCommand?
    ensures FinalAsked(admitted + [command]) <==> FinalAsked(admitted) || command.Finalizes()
    ensures CloseAsked(admitted + [command]) <==> CloseAsked(admitted) || command.CloseCommand?
  {
    var all := admitted + [command];
    assert all[|admitted|] == command;
    assert forall i :: 0 <= i < |admitted| ==> all[i] == admitted[i];
  }

  lemma ReturnedNext(calls: seq<Call>, call: Call)
    ensures PrepareReturned(calls + [call]) <==> PrepareReturned(calls) || (IsPrepare(call) && call.ok)
    ensures FinalReturned(calls + [call]) <==> FinalReturned(calls) || (IsFinal(call) && call.ok)
  {
    var all := calls + [call];
    assert all[|calls|] == call;
    assert forall i :: 0 <= i < |calls| ==> all[i] == calls[i];
  }

  lemma ReadBegunNext(calls: seq<Call>, call: Call)
    ensures ReadBegun(calls + [call]) <==>
      if call.Operation? && call.ok && call.command.ReadBeginCommand? then true
      else ReadBegun(calls) && !(call.Operation? && call.ok && call.command.PrepareLegCommand?)
  {
    var all := calls + [call];
    assert all[|calls|] == call;
    assert forall i :: 0 <= i < |calls| ==> all[i] == calls[i];
    if call.Operation? && call.ok && call.command.ReadBeginCommand? {
      assert ReadBegunAt(all, |calls|);
    } else if call.Operation? && call.ok && call.command.PrepareLegCommand? {
      assert forall i :: 0 <= i < |all| ==> !ReadBegunAt(all, i);
    } else {
      if i :| 0 <= i < |calls| && ReadBegunAt(calls, i) {
        assert ReadBegunAt(all, i);
      }
      if i :| 0 <= i < |all| && ReadBegunAt(all, i) {
        assert ReadBegunAt(calls, i);
      }
    }
  }

  /** An admission. */
  lemma AdmitKeepsState(state: State, event: Event, told: seq<Call>, admitted: seq<Command>, command: Command)
    requires StateOk(state, told, admitted) && Transition(state, event).directive == Admit
    requires event.StartRequested? <==> command.PrepareCommand?
    requires event.FinalizeRequested? <==> command.Finalizes()
    requires event.CloseRequested? <==> command.CloseCommand?
    requires !event.PublishRequested? && !event.IsResult()
    ensures StateOk(Transition(state, event).state, told, admitted + [command])
    ensures var next := Transition(state, event).state;
      event.CloseRequested? ==>
        next == Closing(FailureOf(state), next.drain, StartAsked(admitted))
        && (next.drain <==> WillDrain(told, admitted, FailureOf(state).Some?))
  {
    hide ReadBegun, PrepareReturned, FinalReturned;
    AskedNext(admitted, command);
    assert admitted == [] ==> admitted + [command] == [command];
  }

  /** The result of an operation that returned. */
  lemma ReturnKeepsState(state: State, told: seq<Call>, admitted: seq<Command>, call: Call)
    requires StateOk(state, told, admitted) && call.Operation? && call.ok && call.command in admitted
    ensures StateOk(Transition(state, SuccessEvent(call.command)).state, told + [call], admitted)
  {
    hide ReadBegun, PrepareReturned, FinalReturned;
    ReturnedNext(told, call);
    ReadBegunNext(told, call);
  }

  /** Other calls tell the machine nothing. */
  lemma CallKeepsState(state: State, told: seq<Call>, admitted: seq<Command>, call: Call)
    requires StateOk(state, told, admitted) && (call.Append? || !call.ok)
    ensures StateOk(state, told + [call], admitted)
  {
    hide ReadBegun, PrepareReturned, FinalReturned, FinalAsked, CloseAsked;
    ReturnedNext(told, call);
    ReadBegunNext(told, call);
  }

  /** A recorded failure. */
  lemma FailureKeepsState(state: State, event: Event, told: seq<Call>, admitted: seq<Command>)
    requires StateOk(state, told, admitted)
    requires event.CommandFailed? || (event.CloseFailed? && state.Closing?)
    requires event.CommandFailed? ==> StartAsked(admitted)
    ensures StateOk(Transition(state, event).state, told, admitted)
  {}

  // ----- the same while the last result is still under way

  /** The calls whose results the machine has been told: all, but the one that has just come back. */
  function Told(calls: seq<Call>, untold: bool): seq<Call> {
    if untold && calls != [] then calls[..|calls| - 1] else calls
  }

  ghost predicate MachineOk(state: State, calls: seq<Call>, untold: bool, admitted: seq<Command>) {
    && StateOk(state, Told(calls, untold), admitted)
    && (untold ==> calls != [] && calls[|calls| - 1].Operation? && calls[|calls| - 1].ok)
  }

  lemma AdmitKeepsMachine(
    state: State, event: Event, calls: seq<Call>, untold: bool, admitted: seq<Command>, command: Command)
    requires MachineOk(state, calls, untold, admitted) && Transition(state, event).directive == Admit
    requires event.StartRequested? <==> command.PrepareCommand?
    requires event.FinalizeRequested? <==> command.Finalizes()
    requires event.CloseRequested? <==> command.CloseCommand?
    requires !event.PublishRequested? && !event.IsResult()
    ensures MachineOk(Transition(state, event).state, calls, untold, admitted + [command])
    ensures var next := Transition(state, event).state;
      event.CloseRequested? ==>
        next == Closing(FailureOf(state), next.drain, StartAsked(admitted))
        && (next.drain <==> WillDrain(Told(calls, untold), admitted, FailureOf(state).Some?))
  {
    hide StateOk, Transition;
    AdmitKeepsState(state, event, Told(calls, untold), admitted, command);
  }

  /** A call comes back. */
  lemma CallKeepsMachine(state: State, calls: seq<Call>, admitted: seq<Command>, call: Call)
    requires MachineOk(state, calls, false, admitted)
    ensures MachineOk(state, calls + [call], call.Operation? && call.ok, admitted)
  {
    hide StateOk;
    if call.Operation? && call.ok {
      assert (calls + [call])[..|calls|] == calls;
    } else {
      CallKeepsState(state, calls, admitted, call);
    }
  }

  /** The machine is told its result. */
  lemma TellKeepsMachine(state: State, calls: seq<Call>, admitted: seq<Command>)
    requires MachineOk(state, calls, true, admitted) && calls[|calls| - 1].command in admitted
    ensures MachineOk(Transition(state, SuccessEvent(calls[|calls| - 1].command)).state, calls, false, admitted)
  {
    hide StateOk, Transition, SuccessEvent;
    var last := calls[|calls| - 1];
    assert calls == calls[..|calls| - 1] + [last];
    ReturnKeepsState(state, calls[..|calls| - 1], admitted, last);
  }

  lemma FailureKeepsMachine(state: State, event: Event, calls: seq<Call>, admitted: seq<Command>)
    requires MachineOk(state, calls, false, admitted)
    requires event.CommandFailed? || (event.CloseFailed? && state.Closing?)
    requires event.CommandFailed? ==> StartAsked(admitted)
    ensures MachineOk(Transition(state, event).state, calls, false, admitted)
  {
    hide StateOk, Transition;
    FailureKeepsState(state, event, calls, admitted);
  }

  /** The machine's answer to a request. */
  lemma MachineAnswers(state: State, event: Event, calls: seq<Call>, untold: bool, admitted: seq<Command>)
    requires MachineOk(state, calls, untold, admitted) && !event.IsResult() && CallsAdmitted(calls, admitted)
    ensures Transition(state, event).directive == Verdict(event, Told(calls, untold), admitted, FailureOf(state).Some?)
    ensures FinalReturned(Told(calls, untold)) ==> FinalAsked(admitted)
  {
    var told := Told(calls, untold);
    assert FinalReturned(told) ==> FinalAsked(admitted) by {
      if i :| 0 <= i < |told| && IsFinal(told[i]) && told[i].ok {
        assert told[i] == calls[i] && calls[i].command in admitted;
      }
    }
    hide StateOk, Transition, Verdict, FinalReturned, FinalAsked;
    VerdictIs(state, event, told, admitted);
  }
}
