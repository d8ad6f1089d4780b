/** The lifecycle of one capture source, for the events the audio store raises. */
module AudioMachine {
  import opened Bytes

  datatype Phase = Prepared | LegPrepared | Receiving | Interrupted | SealedWaiting | Blocked | Covered | Retiring

  datatype Action = Persist | Idempotent | CommitBarrier | InspectOnly | Block | Refuse

  datatype Event =
    | Create
    | PrepareLeg(bounded: bool, exactIdentity: bool, barrierCommitted: bool)
    | ReadBegin(matching: bool, duplicate: bool)
    | Data(matching: bool, replay: bool, evidenceRetained: bool)
    | Done(validated: bool, authenticatedPrefix: bool, exactIdentity: bool)
    | Interruption

  datatype Verdict = Verdict(next: Option<Phase>, action: Action)

  function Transition(phase: Option<Phase>, event: Event): Verdict {
    match event
    case Create =>
      if phase.None? then Verdict(Some(Prepared), Persist) else Verdict(phase, Refuse)
    case PrepareLeg(bounded, exact, barrier) =>
      if !bounded then Verdict(phase, Refuse)
      else if phase == Some(Prepared) || phase == Some(Interrupted) then Verdict(Some(LegPrepared), Persist)
      else if phase == Some(LegPrepared) && exact then Verdict(Some(LegPrepared), Idempotent)
      else if phase == Some(Receiving) && barrier then Verdict(Some(LegPrepared), CommitBarrier)
      else Verdict(phase, Refuse)
    case ReadBegin(matching, duplicate) =>
      if phase == Some(LegPrepared) && matching then Verdict(Some(Receiving), Persist)
      else if phase == Some(Receiving) && matching && duplicate then Verdict(Some(Receiving), Idempotent)
      else Verdict(phase, Refuse)
    case Data(matching, replay, retained) =>
      if phase == Some(Receiving) && matching then Verdict(Some(Receiving), if replay then Idempotent else Persist)
      else if phase in {Some(Prepared), Some(LegPrepared), Some(Receiving), Some(Interrupted)} && !matching && retained
      then Verdict(Some(Blocked), Block)
      else Verdict(phase, Refuse)
    case Done(validated, authenticated, exact) =>
      if phase in {Some(Receiving), Some(Interrupted)} && validated && authenticated
      then Verdict(Some(SealedWaiting), Persist)
      else if phase == Some(SealedWaiting) && validated && authenticated && exact
      then Verdict(Some(SealedWaiting), Idempotent)
      else Verdict(phase, Refuse)
    case Interruption =>
      if phase in {Some(Prepared), Some(LegPrepared), Some(Receiving)} then Verdict(Some(Interrupted), Persist)
      else if phase == Some(Interrupted) then Verdict(phase, Idempotent)
      else if phase in {Some(SealedWaiting), Some(Blocked)} then Verdict(phase, InspectOnly)
      else Verdict(phase, Refuse)
  }

  /** `_phase_after`: the phase an authorized event leads to. */
  function PhaseAfter(phase: Option<Phase>, event: Event, required: Option<Action>): Option<Phase> {
    var verdict := Transition(phase, event);
    if required.Some? && verdict.action != required.value then None
    else if verdict.action !in {Persist, CommitBarrier, Idempotent} then None
    else verdict.next
  }

  const DATA := Data(true, false, true)

  const DONE := Done(true, true, false)

  predicate AcceptsData(phase: Phase) {
    Transition(Some(phase), DATA).action == Persist
  }

  /** The event moves a source from `phase` to another one, `next`. */
  predicate Enters(phase: Option<Phase>, event: Event, next: Phase) {
    Transition(phase, event).next == Some(next) && phase != Some(next)
  }

  /** How each phase is entered, and with which action; no event enters any other. */
  lemma EnteredExactly(phase: Option<Phase>, event: Event)
    ensures Enters(phase, event, Prepared) <==> phase.None? && event.Create?
    ensures Enters(phase, event, LegPrepared) <==>
      && event.PrepareLeg? && event.bounded
      && (phase in {Some(Prepared), Some(Interrupted)} || (phase == Some(Receiving) && event.barrierCommitted))
    ensures Enters(phase, event, Receiving) <==> phase == Some(LegPrepared) && event.ReadBegin? && event.matching
    ensures Enters(phase, event, Interrupted) <==>
      phase in {Some(Prepared), Some(LegPrepared), Some(Receiving)} && event.Interruption?
    ensures Enters(phase, event, SealedWaiting) <==>
      phase in {Some(Receiving), Some(Interrupted)} && event.Done? && event.validated && event.authenticatedPrefix
    ensures Enters(phase, event, Blocked) <==>
      && phase in {Some(Prepared), Some(LegPrepared), Some(Receiving), Some(Interrupted)}
      && event.Data? && !event.matching && event.evidenceRetained
    ensures !Enters(phase, event, Covered) && !Enters(phase, event, Retiring)
    ensures var verdict := Transition(phase, event);
      verdict.next != phase ==>
        && verdict.next.Some?
        && verdict.action == if verdict.next == Some(Blocked) then Block
                             else if phase == Some(Receiving) && event.PrepareLeg? then CommitBarrier
                             else Persist
  {}

  /** What is answered where the phase stays as it is. */
  lemma StaysExactly(phase: Option<Phase>, event: Event)
    requires Transition(phase, event).next == phase
    ensures Transition(phase, event).action ==
      if phase == Some(LegPrepared) && event.PrepareLeg? && event.bounded && event.exactIdentity then Idempotent
      else if phase == Some(Receiving) && event.ReadBegin? && event.matching && event.duplicate then Idempotent
      else if phase == Some(Receiving) && event.Data? && event.matching then if event.replay then Idempotent else Persist
      else if phase == Some(SealedWaiting) && event == Done(true, true, true) then Idempotent
      else if phase == Some(Interrupted) && event.Interruption? then Idempotent
      else if phase in {Some(SealedWaiting), Some(Blocked)} && event.Interruption? then InspectOnly
      else Refuse
  {}
}
