/** The writer's lifecycle: a state and an event give the next state and one directive. */
module WriterMachine {
  import opened Bytes

  type Error = string

  datatype State =
    | Constructed
    | Preparing
    | Prepared
    | Reading
    | Finalizing
    | Finalized
    | Failed(error: Error)
    | Closing(failure: Option<Error>, drain: bool, startAdmitted: bool)
    | Closed(failure: Option<Error>, startAdmitted: bool)

  datatype Event =
    | StartRequested
    | LegRequested
    | ReadBeginRequested
    | CheckpointRequested
    | FinalizeRequested
    | CloseRequested
    | PublishRequested
    | PrepareSucceeded
    | LegSucceeded
    | ReadBeginSucceeded
    | CheckpointSucceeded
    | FinalizeSucceeded
    | CommandFailed(error: Error)
    | CloseSucceeded
    | CloseFailed(error: Error)
  {
    predicate IsResult() {
      || PrepareSucceeded? || LegSucceeded? || ReadBeginSucceeded? || CheckpointSucceeded? || FinalizeSucceeded?
      || CommandFailed? || CloseSucceeded? || CloseFailed?
    }
  }

  datatype RejectionKind =
    | NotStarted
    | PreparePending
    | ReadPending
    | WhileFinalizing
    | AlreadyFinalized
    | FinalizePending
    | AlreadyClosed
    | AlreadyFailed

  datatype Directive = Admit | ReuseClose | Ignore | Reject(kind: RejectionKind)

  datatype TransitionResult = TransitionResult(state: State, directive: Directive)

  function FailureOf(state: State): Option<Error> {
    match state
    case Failed(error) => Some(error)
    case Closing(failure, _, _) => failure
    case Closed(failure, _) => failure
    case _ => None
  }

  /** `failure_of(state) or event.error`. */
  function Latch(state: State, error: Error): Error {
    match FailureOf(state) case Some(first) => first case None => error
  }

  function Transition(state: State, event: Event): TransitionResult {
    match event
    case StartRequested => HandleStartRequest(state)
    case CloseRequested => HandleCloseRequest(state)
    case CommandFailed(error) => HandleCommandFailure(state, error)
    case CloseFailed(error) => HandleCloseFailure(state, error)
    case _ =>
      if state.Closed? then TransitionResult(state, if event.IsResult() then Ignore else Reject(AlreadyClosed))
      else if state.Closing? then HandleClosing(state, event)
      else HandleOpenState(state, event)
  }

  function HandleStartRequest(state: State): TransitionResult {
    if state.Constructed? then TransitionResult(Preparing, Admit)
    else if (state.Closing? || state.Closed?) && !state.startAdmitted then TransitionResult(state, Reject(AlreadyClosed))
    else if FailureOf(state).Some? then TransitionResult(state, Reject(AlreadyFailed))
    else TransitionResult(state, Ignore)
  }

  function HandleOpenState(state: State, event: Event): TransitionResult {
    if event.CloseSucceeded? then TransitionResult(state, Ignore)
    else if state.Failed? then TransitionResult(state, if event.IsResult() then Ignore else Reject(AlreadyFailed))
    else HandleHealthy(state, event)
  }

  function HandleCommandFailure(state: State, error: Error): TransitionResult {
    var failure := Latch(state, error);
    if state.Closing? then TransitionResult(Closing(Some(failure), false, state.startAdmitted), Ignore)
    else if state.Closed? then TransitionResult(Closed(Some(failure), state.startAdmitted), Ignore)
    else TransitionResult(Failed(failure), Ignore)
  }

  function HandleCloseFailure(state: State, error: Error): TransitionResult {
    var startAdmitted := if state.Closing? || state.Closed? then state.startAdmitted else !state.Constructed?;
    TransitionResult(Closed(Some(Latch(state, error)), startAdmitted), Ignore)
  }

  function HandleHealthy(state: State, event: Event): TransitionResult {
    match state
    case Constructed =>
      if event.PublishRequested? then TransitionResult(state, Admit) else RequestRejection(state, event, NotStarted)
    case Preparing =>
      if event.PrepareSucceeded? then TransitionResult(Prepared, Ignore)
      else if event.PublishRequested? then TransitionResult(state, Admit)
      else RequestRejection(state, event, PreparePending)
    case Prepared =>
      if event.LegRequested? || event.ReadBeginRequested? || event.PublishRequested? then TransitionResult(state, Admit)
      else if event.FinalizeRequested? then TransitionResult(Finalizing, Admit)
      else if event.ReadBeginSucceeded? then TransitionResult(Reading, Ignore)
      else if event.LegSucceeded? then TransitionResult(state, Ignore)
      else RequestRejection(state, event, ReadPending)
    case Reading =>
      if event.FinalizeRequested? then TransitionResult(Finalizing, Admit)
      else if event.LegRequested? || event.ReadBeginRequested? || event.CheckpointRequested? || event.PublishRequested?
      then TransitionResult(state, Admit)
      else if event.LegSucceeded? then TransitionResult(Prepared, Ignore)
      else if event.ReadBeginSucceeded? then TransitionResult(state, Ignore)
      else RequestRejection(state, event, ReadPending)
    case Finalizing =>
      if event.FinalizeSucceeded? then TransitionResult(Finalized, Ignore)
      else if event.FinalizeRequested? then TransitionResult(state, Reject(FinalizePending))
      else RequestRejection(state, event, WhileFinalizing)
    case _ => RequestRejection(state, event, AlreadyFinalized)
  }

  function HandleCloseRequest(state: State): TransitionResult {
    if state.Closed? || state.Closing? then TransitionResult(state, ReuseClose)
    else if state.Failed? then TransitionResult(Closing(Some(state.error), false, true), Admit)
    else TransitionResult(
      Closing(None, state.Reading? || state.Finalizing? || state.Finalized?, !state.Constructed?), Admit)
  }

  function HandleClosing(state: State, event: Event): TransitionResult
    requires state.Closing?
  {
    if event.CloseSucceeded? then TransitionResult(Closed(state.failure, state.startAdmitted), Ignore)
    else if event.ReadBeginSucceeded? then
      TransitionResult(Closing(state.failure, state.failure.None?, state.startAdmitted), Ignore)
    else RequestRejection(state, event, AlreadyClosed)
  }

  function RequestRejection(state: State, event: Event, kind: RejectionKind): TransitionResult {
    TransitionResult(state, if event.IsResult() then Ignore else Reject(kind))
  }

  // ----- runs of the machine

  function Final(state: State, events: seq<Event>): State
    decreases |events|
  {
    if events == [] then state else Final(Transition(state, events[0]).state, events[1..])
  }

  /** How far the lifecycle has come; it never goes back, though legs move between the two states of stage 2. */
  function Stage(state: State): nat {
    match state
    case Constructed => 0
    case Preparing => 1
    case Prepared => 2
    case Reading => 2
    case Finalizing => 3
    case Finalized => 4
    case Failed(_) => 5
    case Closing(_, _, _) => 6
    case Closed(_, _) => 7
  }

  lemma StageAdvances(state: State, event: Event)
    ensures Stage(state) <= Stage(Transition(state, event).state)
  {}

  /** The first failure stays the failure, whatever happens after it. */
  lemma {:induction false} FailureIsForever(state: State, events: seq<Event>)
    requires FailureOf(state).Some?
    ensures FailureOf(Final(state, events)) == FailureOf(state)
    decreases |events|
  {
    if events != [] {
      FailureIsForever(Transition(state, events[0]).state, events[1..]);
    }
  }

  /** Which admission the requests that may happen only once lead to. */
  predicate AdmittedOnce(kind: Event) {
    kind.StartRequested? || kind.FinalizeRequested? || kind.CloseRequested?
  }

  function StageBeyond(kind: Event): nat
    requires AdmittedOnce(kind)
  {
    match kind case StartRequested => 0 case FinalizeRequested => 2 case CloseRequested => 5
  }

  function Admissions(state: State, events: seq<Event>, kind: Event): nat
    decreases |events|
  {
    if events == [] then 0
    else
      var result := Transition(state, events[0]);
      (if events[0] == kind && result.directive == Admit then 1 else 0) + Admissions(result.state, events[1..], kind)
  }

  /** Start, finalization and close are each admitted at most once, over any sequence of events. */
  lemma {:induction false} AtMostOneAdmission(state: State, events: seq<Event>, kind: Event)
    requires AdmittedOnce(kind)
    ensures Admissions(state, events, kind) <= 1
    ensures Stage(state) > StageBeyond(kind) ==> Admissions(state, events, kind) == 0
    decreases |events|
  {
    if events != [] {
      var result := Transition(state, events[0]);
      StageAdvances(state, events[0]);
      AtMostOneAdmission(result.state, events[1..], kind);
    }
  }

  /** Publication is open exactly until a finalization, a close or a failure, and none of these is ever undone. */
  lemma {:induction false} PublicationCloses(state: State, events: seq<Event>)
    ensures Transition(state, PublishRequested).directive == Admit <==> Stage(state) <= 2
    ensures Stage(state) > 2 ==> Transition(Final(state, events), PublishRequested).directive != Admit
    decreases |events|
  {
    if events != [] {
      StageAdvances(state, events[0]);
      PublicationCloses(Transition(state, events[0]).state, events[1..]);
    }
  }

  lemma CommandFailureLatches(state: State, error: Error)
    ensures
      var after := Transition(state, CommandFailed(error)).state;
      && FailureOf(after) == Some(Latch(state, error))
      && (after.Closing? ==> !after.drain)
  {}

  lemma {:induction false} FailedNeverDrains(state: State, events: seq<Event>)
    requires FailureOf(state).Some? && (state.Closing? ==> !state.drain)
    ensures Final(state, events).Closing? ==> !Final(state, events).drain
    decreases |events|
  {
    if events != [] {
      FailedNeverDrains(Transition(state, events[0]).state, events[1..]);
    }
  }

  /** Once a command has failed, in whatever state, the first failure stays latched and no close ever drains: neither one
    * under way nor one requested later. */
  lemma NoDrainAfterFailure(state: State, error: Error, events: seq<Event>)
    ensures
      var last := Final(Transition(state, CommandFailed(error)).state, events);
      && FailureOf(last) == Some(Latch(state, error))
      && (last.Closing? ==> !last.drain)
  {
    hide Transition;
    CommandFailureLatches(state, error);
    FailureIsForever(Transition(state, CommandFailed(error)).state, events);
    FailedNeverDrains(Transition(state, CommandFailed(error)).state, events);
  }

  /** `start_admitted` is not exact for arbitrary events: a command failure before any start makes a later close claim
    * that a start was admitted. */
  lemma FailureBeforeStart(error: Error)
    ensures
      var closing := Final(Constructed, [CommandFailed(error), CloseRequested]);
      closing == Closing(Some(error), false, true)
  {
    var failed := Transition(Constructed, CommandFailed(error)).state;
    assert [CommandFailed(error), CloseRequested][1..] == [CloseRequested];
    assert [CloseRequested][1..] == [];
    assert Final(failed, [CloseRequested]) == Transition(failed, CloseRequested).state;
  }

  /** What the state claims about whether a start was admitted. */
  ghost predicate Remembers(state: State, started: bool) {
    match state
    case Constructed => !started
    case Closing(_, _, startAdmitted) => startAdmitted == started
    case Closed(_, startAdmitted) => startAdmitted == started
    case _ => started
  }

  /** Without such a failure the claim is right. */
  lemma {:induction false} StartIsRemembered(state: State, started: bool, events: seq<Event>)
    requires Remembers(state, started)
    requires forall i :: 0 <= i < |events| && events[i].CommandFailed? ==>
      Final(state, events[..i]) != Constructed
    ensures Remembers(Final(state, events), started || Admissions(state, events, StartRequested) > 0)
    decreases |events|
  {
    if events != [] {
      var next := Transition(state, events[0]).state;
      assert events[..0] == [] && Final(state, events[..0]) == state;
      forall i | 0 <= i < |events[1..]| && events[1..][i].CommandFailed?
        ensures Final(next, events[1..][..i]) != Constructed
      {
        assert events[..i + 1][1..] == events[1..][..i];
        assert Final(state, events[..i + 1]) == Final(next, events[1..][..i]);
      }
      StartIsRemembered(
        next, started || (events[0].StartRequested? && Transition(state, events[0]).directive == Admit), events[1..]);
    }
  }

  /** A failed writer that claims a start, though none was admitted, claims it forever. */
  lemma {:induction false} WrongForever(state: State, events: seq<Event>)
    requires Stage(state) >= 5 && !Remembers(state, false)
    ensures Admissions(state, events, StartRequested) == 0
    ensures !Remembers(Final(state, events), false)
    decreases |events|
  {
    if events != [] {
      WrongForever(Transition(state, events[0]).state, events[1..]);
    }
  }

  /** A run that ends in `Constructed` was there throughout, and admitted no start. */
  lemma {:induction false} StillConstructed(state: State, events: seq<Event>)
    requires Final(state, events) == Constructed
    ensures state == Constructed && Admissions(state, events, StartRequested) == 0
    decreases |events|
  {
    if events != [] {
      StillConstructed(Transition(state, events[0]).state, events[1..]);
    }
  }

  lemma {:induction false} RunsOn(state: State, a: seq<Event>, b: seq<Event>)
    ensures Final(state, a + b) == Final(Final(state, a), b)
    ensures Admissions(state, a + b, StartRequested)
         == Admissions(state, a, StartRequested) + Admissions(Final(state, a), b, StartRequested)
    decreases |a|
  {
    if a == [] {
      assert a + b == b;
    } else {
      assert (a + b)[0] == a[0] && (a + b)[1..] == a[1..] + b;
      RunsOn(Transition(state, a[0]).state, a[1..], b);
    }
  }

  /** A command fails while the writer is still constructed. */
  predicate FailsBeforeStart(events: seq<Event>, i: nat)
    requires i < |events|
  {
    events[i].CommandFailed? && Final(Constructed, events[..i]) == Constructed
  }

  lemma FailureBeforeStartIsForgotten(events: seq<Event>, i: nat)
    requires i < |events| && FailsBeforeStart(events, i)
    ensures !Remembers(Final(Constructed, events), Admissions(Constructed, events, StartRequested) > 0)
  {
    var failed := Transition(Constructed, events[i]).state;
    StillConstructed(Constructed, events[..i]);
    WrongForever(failed, events[i + 1..]);
    RunsOn(Constructed, events[..i], events[i..]);
    assert events[..i] + events[i..] == events && events[i..][0] == events[i] && events[i..][1..] == events[i + 1..];
  }

  /** The start flag is right exactly after the runs in which no command fails while the writer is still constructed. */
  lemma StartIsRememberedExactly(events: seq<Event>)
    ensures Remembers(Final(Constructed, events), Admissions(Constructed, events, StartRequested) > 0)
       <==> forall i :: 0 <= i < |events| ==> !FailsBeforeStart(events, i)
  {
    if i :| 0 <= i < |events| && FailsBeforeStart(events, i) {
      FailureBeforeStartIsForgotten(events, i);
    } else {
      assert forall i :: 0 <= i < |events| && events[i].CommandFailed? ==> !FailsBeforeStart(events, i);
      StartIsRemembered(Constructed, false, events);
    }
  }
}
