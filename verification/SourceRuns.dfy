/** Whole lives of a capture source: any sequence of operations, each of which may or may not take effect. */
module SourceRuns {
  import opened AudioMachine
  import opened Bytes
  import opened CaptureDrain
  import opened CaptureRecords
  import opened DrainLaws

  datatype Operation =
    | PrepareLeg(start: int, count: int)
    | RecordReadBegin(start: int, count: int)
    | CommitDrain(limit: nat, request: Request)
    | CommitTail(expected: int, generation: int, tail: Option<Tail>)
    | Interrupt
    | SealSource(generation: int, count: int, digest: string)

  function Decide(hash: bytes -> Sha256, d: Durable, operation: Operation): Decision
    requires Placed(d)
  {
    match operation
    case PrepareLeg(start, count) => DecidePrepare(d, start, count)
    case RecordReadBegin(start, count) => DecideReadBegin(d, start, count)
    case CommitDrain(limit, request) => DecideDrain(hash, limit, d, request)
    case CommitTail(expected, generation, tail) => DecideTail(d, expected, generation, tail)
    case Interrupt => DecideInterrupt(d)
    case SealSource(generation, count, digest) => DecideSeal(d, generation, count, digest)
  }

  /** The durable state a decision asks for. */
  function Outcome(d: Durable, decision: Decision, now: int, retention: nat): Durable {
    match decision
    case Refused => d
    case Accepted(next) => next
    case Contested(offset, rejected, reason) => Quarantined(d, offset, rejected, reason, now, retention)
  }

  /** One call: when it came, and whether its transaction took effect. */
  datatype Call = Call(operation: Operation, now: int, retention: nat, effective: bool)

  function After(hash: bytes -> Sha256, d: Durable, call: Call): Durable
    requires Placed(d)
  {
    if call.effective then Outcome(d, Decide(hash, d, call.operation), call.now, call.retention) else d
  }

  // ----- one call

  lemma PrepareSound(hash: bytes -> Sha256, d: Durable, start: int, count: int)
    requires Sound(hash, d) && DecidePrepare(d, start, count).Accepted?
    ensures var next := DecidePrepare(d, start, count).next;
      Sound(hash, next) && next == d.(source := next.source) && next.source.count == d.source.count
  {
    hide Raws;
  }

  lemma PhaseSound(hash: bytes -> Sha256, d: Durable, operation: Operation)
    requires Sound(hash, d) && (operation.RecordReadBegin? || operation.Interrupt? || operation.SealSource?)
    requires Decide(hash, d, operation).Accepted?
    ensures var next := Decide(hash, d, operation).next;
      Sound(hash, next) && next == d.(source := next.source) && next.source.count == d.source.count
  {
    hide Raws, DecideDrain, DecideTail, DecidePrepare;
  }

  /** Only drains and tails meet conflicts; a refusal or a conflict leaves rows, tail, count and digest alone. */
  lemma ContestKeepsBytes(hash: bytes -> Sha256, d: Durable, call: Call)
    requires Sound(hash, d) && !Decide(hash, d, call.operation).Accepted?
    ensures var next := After(hash, d, call);
      && next.rows == d.rows && next.tail == d.tail
      && next.source.count == d.source.count && next.source.digest == d.source.digest
      && d.conflicts <= next.conflicts && |next.conflicts| <= |d.conflicts| + 1
      && (next != d ==> next.source.phase == Blocked && d.source.phase == Receiving)
  {
    hide Raws, ResolveTail, Classify, LastConflictOrdinal;
    if Decide(hash, d, call.operation).Contested? {
      ContestedReceives(hash, d, call.operation);
    }
  }

  /**
   * A conflict that is retained is the source's first and only one, and is filed under the leg it came in. The source
   * is held for the reason of the conflict, never for an authentication mismatch, and gets a deadline exactly if it
   * holds no record.
   */
  lemma ConflictCustody(hash: bytes -> Sha256, d: Durable, call: Call)
    requires Sound(hash, d) && call.effective && Decide(hash, d, call.operation).Contested?
    ensures var decision := Decide(hash, d, call.operation);
      var next := After(hash, d, call);
      && next.source.kind == Quarantine
      && |next.conflicts| == 1
      && next.conflicts[0]
         == Conflict(0, d.source.generation, decision.offset, decision.reason, decision.rejected)
      && next.custody.Some?
      && next.custody.value.blockReason == decision.reason
      && (next.custody.value.disposition == Unprocessable <==> d.rows == [])
      && next.custody.value.retention == (if d.rows == [] then Some(call.now + call.retention) else None)
  {
    hide Raws, Decide;
    assert d.source.phase == Receiving by { ContestedReceives(hash, d, call.operation); }
    assert d.conflicts == [];
  }

  lemma ContestedReceives(hash: bytes -> Sha256, d: Durable, operation: Operation)
    requires Placed(d) && Decide(hash, d, operation).Contested?
    ensures d.source.phase == Receiving
  {
    hide Raws, ResolveTail, ReplayOrAppend, AppendDrain;
  }

  /** Every call keeps the source sound and only extends its stream. */
  lemma CallGrows(hash: bytes -> Sha256, d: Durable, call: Call)
    requires Sound(hash, d)
    ensures Sound(hash, After(hash, d, call)) && Grown(d, After(hash, d, call))
    ensures d.conflicts <= After(hash, d, call).conflicts
  {
    var decision := Decide(hash, d, call.operation);
    hide Raws, ResolveTail, DecideDrain, DecideTail, DecidePrepare, DecideReadBegin, DecideInterrupt, DecideSeal;
    match decision
    case Refused =>
    case Contested(_, _, _) =>
      ContestKeepsBytes(hash, d, call);
      ContestedReceives(hash, d, call.operation);
    case Accepted(next) =>
      match call.operation
      case CommitDrain(limit, request) =>
        DrainGrows(hash, limit, d, request);
        AcceptedFits(hash, limit, d, request);
      case CommitTail(e, g, tail) => TailDecides(hash, d, e, g, tail);
      case PrepareLeg(start, count) => PrepareSound(hash, d, start, count);
      case _ => PhaseSound(hash, d, call.operation);
  }

  // ----- whole runs

  function Run(hash: bytes -> Sha256, d: Durable, calls: seq<Call>): (end: Durable)
    requires Sound(hash, d)
    ensures Sound(hash, end)
    decreases |calls|
  {
    if calls == [] then d
    else
      CallGrows(hash, d, calls[0]);
      Run(hash, After(hash, d, calls[0]), calls[1..])
  }

  lemma {:induction false} RunSplits(hash: bytes -> Sha256, d: Durable, calls: seq<Call>, i: nat)
    requires Sound(hash, d) && i <= |calls|
    ensures Run(hash, d, calls) == Run(hash, Run(hash, d, calls[..i]), calls[i..])
    decreases |calls|
  {
    if i > 0 {
      CallGrows(hash, d, calls[0]);
      RunSplits(hash, After(hash, d, calls[0]), calls[1..], i - 1);
      assert calls[..i][0] == calls[0] && calls[..i][1..] == calls[1..][..i - 1];
      assert calls[i..] == calls[1..][i - 1..];
    } else {
      assert calls[0..] == calls && calls[..0] == [];
    }
  }

  lemma {:induction false} RunGrows(hash: bytes -> Sha256, d: Durable, calls: seq<Call>)
    requires Sound(hash, d)
    ensures Grown(d, Run(hash, d, calls)) && d.conflicts <= Run(hash, d, calls).conflicts
    decreases |calls|
  {
    if calls != [] {
      hide Raws, After;
      CallGrows(hash, d, calls[0]);
      RunGrows(hash, After(hash, d, calls[0]), calls[1..]);
    }
  }

  lemma BornSound(hash: bytes -> Sha256, kind: SourceKind, start: int, limit: int)
    requires Created(hash, kind, start, limit).Some?
    ensures Sound(hash, Created(hash, kind, start, limit).value)
  {}

  /** From creation on, whatever was accepted at any moment is a prefix of what is accepted at every later one. */
  lemma StreamOnlyGrows(hash: bytes -> Sha256, kind: SourceKind, start: int, limit: int, calls: seq<Call>, i: nat, j: nat)
    requires Created(hash, kind, start, limit).Some? && i <= j <= |calls|
    ensures Sound(hash, Created(hash, kind, start, limit).value)
    ensures var born := Created(hash, kind, start, limit).value;
      var earlier, later := Run(hash, born, calls[..i]), Run(hash, born, calls[..j]);
      && Stream(earlier) <= Stream(later)
      && earlier.rows <= later.rows
      && earlier.conflicts <= later.conflicts
      && later.source.count == |later.rows|
      && later.source.digest == hash(Raws(later.rows))
      && (later.tail.Some? ==>
            && TailPlaced(later.tail.value, |later.rows|)
            && later.source.start + |later.rows| < later.source.limit)
  {
    var born := Created(hash, kind, start, limit).value;
    BornSound(hash, kind, start, limit);
    hide Raws, Created, Run;
    RunSplits(hash, born, calls[..j], i);
    assert calls[..j][..i] == calls[..i];
    RunGrows(hash, Run(hash, born, calls[..i]), calls[..j][i..]);
  }

  /** A sealed or blocked source never changes again by any of these operations. */
  lemma TerminalStays(hash: bytes -> Sha256, d: Durable, call: Call)
    requires Sound(hash, d) && d.source.phase in {SealedWaiting, Blocked, Covered, Retiring}
    ensures After(hash, d, call) == d
  {
    hide Raws, ResolveTail, ReplayOrAppend, AppendDrain;
  }

  /** `seal_source` never finds a partial tail in a complete source; a seal moves the phase and nothing else. */
  lemma SealMeetsNoTail(hash: bytes -> Sha256, d: Durable, generation: int, count: int, digest: string)
    requires Sound(hash, d)
    ensures var decision := DecideSeal(d, generation, count, digest);
      && (decision.Accepted? <==>
            && generation == d.source.generation
            && count == |d.rows| == d.source.limit - d.source.start
            && digest == hash(Raws(d.rows))
            && d.source.phase in {Receiving, Interrupted})
      && (decision.Accepted? ==> decision.next == d.(source := d.source.(phase := SealedWaiting)))
      && !decision.Contested?
  {
    hide Raws;
  }

  // ----- commits of unknown outcome

  /** How the database answers one commit, and whether it can be inspected after an error. */
  datatype Commit = Confirmed | Failed(applied: bool, readable: bool)
  {
    predicate TookEffect() { Confirmed? || applied }

    predicate Inspectable() { Confirmed? || readable }
  }

  datatype Reply =
    | Stored(count: nat)
    | Rejected
    | RolledBack
    | Unconfirmed
    | FailStopped

  /** A drain or tail as the caller sees it: what is durable afterwards, and what the store says. */
  function Answer(d: Durable, decision: Decision, commit: Commit, now: int, retention: nat): (Durable, Reply) {
    match decision
    case Refused => (d, Rejected)
    case Contested(_, _, _) => (if commit.TookEffect() then Outcome(d, decision, now, retention) else d, Rejected)
    case Accepted(next) =>
      if next == d then (d, Stored(d.source.count))
      else if !commit.Inspectable() then (if commit.TookEffect() then next else d, FailStopped)
      else if commit.TookEffect() then (next, Stored(next.source.count))
      else (d, RolledBack)
  }

  /** A leg, READ_BEGIN or interruption as the caller sees it: an error is reported without inspection. */
  function Notice(d: Durable, decision: Decision, commit: Commit): (Durable, Reply) {
    match decision
    case Accepted(next) =>
      if next == d then (d, Stored(d.source.count))
      else if commit.Confirmed? then (next, Stored(next.source.count))
      else (if commit.TookEffect() then next else d, Unconfirmed)
    case _ => (d, Rejected)
  }

  /** What a store leaves behind is what the run of calls says, whatever it answers. */
  lemma AnswersAreCalls(hash: bytes -> Sha256, d: Durable, operation: Operation, commit: Commit, now: int, retention: nat)
    requires Sound(hash, d)
    ensures var decision := Decide(hash, d, operation);
      var after := After(hash, d, Call(operation, now, retention, commit.TookEffect()));
      && Answer(d, decision, commit, now, retention).0 == after
      && (!decision.Contested? ==> Notice(d, decision, commit).0 == after)
  {
    hide Sound, Decide, Quarantined;
  }

  /**
   * Any accepted operation but a seal may be repeated: it is accepted again and changes nothing. So a caller who was
   * told that one is unconfirmed can always ask again.
   */
  lemma OperationTwice(hash: bytes -> Sha256, d: Durable, operation: Operation)
    requires Sound(hash, d) && Decide(hash, d, operation).Accepted? && !operation.SealSource?
    ensures var next := Decide(hash, d, operation).next;
      Sound(hash, next) && Decide(hash, next, operation) == Accepted(next)
  {
    hide Raws, ResolveTail, DecideDrain;
    match operation
    case CommitDrain(limit, request) => DrainTwice(hash, limit, d, request);
    case CommitTail(e, g, tail) =>
      TailDecides(hash, d, e, g, tail);
      assert d.rows + [] == d.rows;
      ResolvesAgain(d, tail, [], Decide(hash, d, operation).next);
    case PrepareLeg(start, count) => PrepareSound(hash, d, start, count);
    case _ => PhaseSound(hash, d, operation);
  }

  lemma AnswerSound(hash: bytes -> Sha256, d: Durable, operation: Operation, commit: Commit, now: int, retention: nat)
    requires Sound(hash, d)
    ensures Sound(hash, Answer(d, Decide(hash, d, operation), commit, now, retention).0)
    ensures Grown(d, Answer(d, Decide(hash, d, operation), commit, now, retention).0)
  {
    hide Sound, Decide, Quarantined;
    CallGrows(hash, d, Call(operation, now, retention, true));
  }

  /** The same drain once for every commit outcome in turn, by whatever store instance is then alive. */
  function Retried(hash: bytes -> Sha256, d: Durable, drain: Operation, commits: seq<Commit>): (r: seq<(Durable, Reply)>)
    requires Sound(hash, d)
    ensures |r| == |commits|
    decreases |commits|
  {
    if commits == [] then []
    else
      var first := Answer(d, Decide(hash, d, drain), commits[0], 0, 0);
      AnswerSound(hash, d, drain, commits[0], 0, 0);
      [first] + Retried(hash, first.0, drain, commits[1..])
  }

  predicate AnyEffect(commits: seq<Commit>) {
    commits != [] && (commits[0].TookEffect() || AnyEffect(commits[1..]))
  }

  /** Nothing happens to a source that has stored the drain already. */
  lemma {:induction false} StoredStays(hash: bytes -> Sha256, d: Durable, drain: Operation, commits: seq<Commit>, i: nat)
    requires Sound(hash, d) && Decide(hash, d, drain) == Accepted(d) && i < |commits|
    ensures Retried(hash, d, drain, commits)[i] == (d, Stored(d.source.count))
    decreases |commits|
  {
    hide Sound, Decide, Placed;
    if i > 0 {
      StoredStays(hash, d, drain, commits[1..], i - 1);
    }
  }

  /** The state and reply after `commits`, the last of which is `last`, for a drain that leads from `d` to `next`. */
  predicate RetriedTo(d: Durable, next: Durable, before: seq<Commit>, last: Commit, state: Durable, reply: Reply) {
    && state == (if AnyEffect(before) || last.TookEffect() then next else d)
    && (reply.Stored? ==> state == next && reply.count == next.source.count)
    && (reply.RolledBack? ==> state == d != next)
    && (reply.FailStopped? <==> !last.Inspectable() && d != next && !AnyEffect(before))
    && !reply.Rejected?
  }

  lemma {:induction false} RetriedReaches(hash: bytes -> Sha256, d: Durable, next: Durable, drain: Operation,
                                          commits: seq<Commit>, i: nat)
    requires Sound(hash, d) && Decide(hash, d, drain) == Accepted(next)
    requires Sound(hash, next) && Decide(hash, next, drain) == Accepted(next)
    requires i < |commits|
    ensures var (state, reply) := Retried(hash, d, drain, commits)[i];
      RetriedTo(d, next, commits[..i], commits[i], state, reply)
    decreases |commits|
  {
    hide Sound, Decide, Placed;
    if i > 0 {
      assert commits[..i][1..] == commits[1..][..i - 1];
      if commits[0].TookEffect() || d == next {
        StoredStays(hash, next, drain, commits[1..], i - 1);
      } else {
        RetriedReaches(hash, d, next, drain, commits[1..], i - 1);
      }
    }
  }

  /**
   * However often a drain is retried over unreliable commits, its records are stored exactly once: after each
   * attempt the source is in the state a single drain leaves, or untouched if no commit took effect yet, and
   * the store says the records are stored only in the former case.
   */
  lemma RetriesStoreOnce(hash: bytes -> Sha256, limit: nat, d: Durable, q: Request, commits: seq<Commit>, i: nat)
    requires Sound(hash, d) && DecideDrain(hash, limit, d, q).Accepted? && i < |commits|
    ensures var next := DecideDrain(hash, limit, d, q).next;
      var (state, reply) := Retried(hash, d, CommitDrain(limit, q), commits)[i];
      RetriedTo(d, next, commits[..i], commits[i], state, reply)
  {
    hide Retried, RetriedTo, DecideDrain, Raws;
    DrainTwice(hash, limit, d, q);
    RetriedReaches(hash, d, DecideDrain(hash, limit, d, q).next, CommitDrain(limit, q), commits, i);
  }
}
