/** Legs over whole runs: which leg a receiving source is bound to, and how leg generations advance. */
module LegRuns {
  import opened AudioMachine
  import opened Bytes
  import opened CaptureDrain
  import opened CaptureRecords
  import opened DrainLaws
  import opened SourceRuns

  /** The columns that describe the leg agree with the phase. */
  predicate LegFits(s: Source) {
    && (s.prepared.Some? <==> s.generation > 0)
    && (s.prepared.Some? ==> s.prepared == Some(s.leg) && s.leg.count > 0)
    && (s.readBegin.Some? ==> s.readBegin == s.prepared)
    && (s.phase == Prepared ==> s.generation == 0 && s.count == 0)
    && (s.phase == LegPrepared ==> s.prepared.Some? && s.readBegin.None?)
    && (s.phase == Receiving ==> s.prepared.Some? && s.readBegin.Some?)
    && s.phase != Covered && s.phase != Retiring
    && s.generation <= UINT32_MAX
  }

  /** A new leg takes the next generation and forgets the READ_BEGIN; nothing else touches either except to bind it. */
  predicate LegAdvances(s: Source, next: Source) {
    || (next.generation == s.generation && next.leg == s.leg && next.prepared == s.prepared
        && (next.readBegin == s.readBegin || (s.phase == LegPrepared && next.readBegin == s.prepared)))
    || (next.generation == s.generation + 1 && next.phase == LegPrepared && next.readBegin.None?
        && s.phase in {Prepared, Interrupted} && next.count == s.count)
  }

  lemma PreparedAdvances(hash: bytes -> Sha256, d: Durable, start: int, count: int)
    requires Sound(hash, d) && LegFits(d.source) && DecidePrepare(d, start, count).Accepted?
    ensures var next := DecidePrepare(d, start, count).next.source;
      LegFits(next) && LegAdvances(d.source, next)
  {
    hide Raws;
  }

  lemma PhaseAdvances(hash: bytes -> Sha256, d: Durable, operation: Operation)
    requires Sound(hash, d) && LegFits(d.source)
    requires operation.RecordReadBegin? || operation.Interrupt? || operation.SealSource?
    requires Decide(hash, d, operation).Accepted?
    ensures var next := Decide(hash, d, operation).next.source;
      LegFits(next) && LegAdvances(d.source, next)
  {
    hide Raws, DecideDrain, DecideTail, DecidePrepare;
  }

  lemma DrainAdvances(hash: bytes -> Sha256, d: Durable, operation: Operation)
    requires Sound(hash, d) && LegFits(d.source) && (operation.CommitDrain? || operation.CommitTail?)
    requires Decide(hash, d, operation).Accepted?
    ensures var next := Decide(hash, d, operation).next.source;
      LegFits(next) && LegAdvances(d.source, next)
  {
    hide Raws, ResolveTail, DecideDrain;
    match operation
    case CommitDrain(limit, request) => AcceptedShape(hash, limit, d, request);
    case CommitTail(e, g, tail) =>
  }

  lemma CallKeepsLeg(hash: bytes -> Sha256, d: Durable, call: Call)
    requires Sound(hash, d) && LegFits(d.source)
    ensures var next := After(hash, d, call).source;
      LegFits(next) && LegAdvances(d.source, next)
  {
    hide Raws, DecideDrain, DecideTail, DecidePrepare, DecideReadBegin, DecideInterrupt, DecideSeal;
    var decision := Decide(hash, d, call.operation);
    if call.effective && decision.Accepted? {
      match call.operation
      case PrepareLeg(start, count) => PreparedAdvances(hash, d, start, count);
      case CommitDrain(_, _) => DrainAdvances(hash, d, call.operation);
      case CommitTail(_, _, _) => DrainAdvances(hash, d, call.operation);
      case _ => PhaseAdvances(hash, d, call.operation);
    } else if decision.Contested? {
      ContestedReceives(hash, d, call.operation);
    }
  }

  lemma {:induction false} RunKeepsLeg(hash: bytes -> Sha256, d: Durable, calls: seq<Call>)
    requires Sound(hash, d) && LegFits(d.source)
    ensures var end := Run(hash, d, calls).source;
      LegFits(end) && d.source.generation <= end.generation <= d.source.generation + |calls|
    decreases |calls|
  {
    if calls != [] {
      hide Sound, After, LegFits;
      CallGrows(hash, d, calls[0]);
      CallKeepsLeg(hash, d, calls[0]);
      RunKeepsLeg(hash, After(hash, d, calls[0]), calls[1..]);
    }
  }

  /**
   * In every run from creation on, a source takes data exactly while it is receiving, for the current leg generation
   * and inside the leg the device confirmed: the refusal for a missing durable leg never fires.
   */
  lemma DataOnlyInConfirmedLeg(hash: bytes -> Sha256, kind: SourceKind, start: int, limit: int, calls: seq<Call>,
                               expected: int, count: nat, generation: int)
    requires Created(hash, kind, start, limit).Some?
    ensures Sound(hash, Created(hash, kind, start, limit).value)
    ensures var s := Run(hash, Created(hash, kind, start, limit).value, calls).source;
      && (ReceivesLeg(s, expected, count, generation) <==>
            && s.phase == Receiving
            && generation == s.generation
            && count > 0
            && s.leg.start <= s.start + expected
            && s.start + expected + count <= s.leg.start + s.leg.count)
      && (s.phase == Receiving ==> s.readBegin == Some(s.leg) == s.prepared)
  {
    var born := Created(hash, kind, start, limit).value;
    BornSound(hash, kind, start, limit);
    assert LegFits(born.source);
    hide Run, Sound;
    RunKeepsLeg(hash, born, calls);
  }
}
