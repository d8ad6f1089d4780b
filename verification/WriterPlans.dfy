/** What the worker calls, given how the target answers: the drain of a command and its operation, as plans that are
  * followed up to the first call that raises. */
module WriterPlans {
  import opened Bytes
  import opened WriterHistory
  import opened WriterLedger
  import opened WriterMachine

  function Min(a: nat, b: nat): nat {
    if a < b then a else b
  }

  // ----- plans

  /** A way to a frontier of the arena, for a command or on an idle turn. */
  datatype Drain = Drain(arena: bytes, chunkRecords: nat, cause: Option<nat>, frontier: nat, tail: bytes) {
    /** The next append: the next chunk, or else a tail not handed over yet, or none. */
    function Next(start: nat, lastTail: bytes): seq<Call>
      requires frontier <= |arena|
    {
      var end := Min(frontier, start + chunkRecords * RECORD_SIZE);
      if start < frontier then [Append(cause, start, arena[start..end], if end == frontier then tail else [], true)]
      else if start == frontier && lastTail != tail then [Append(cause, start, [], tail, true)]
      else []
    }

    /** All of them. */
    function All(start: nat, lastTail: bytes): seq<Call>
      requires frontier <= |arena|
      decreases if start < frontier then frontier - start else 0
    {
      var next := Next(start, lastTail);
      if next == [] || next[0].chunk == [] then next else next + All(start + |next[0].chunk|, next[0].tail)
    }

    /** What a drain sets out to append: everything for a command, one append on an idle turn. */
    function Plan(start: nat, lastTail: bytes): seq<Call>
      requires frontier <= |arena|
    {
      if cause.Some? then All(start, lastTail) else Next(start, lastTail)
    }
  }

  /** A planned call, as it comes out. */
  function Answer(call: Call, error: Option<Error>): Call {
    call.(ok := error.None?)
  }

  /** A plan as the target answers it: the first call that raises is the last. */
  function Answered(plan: seq<Call>, target: nat -> Option<Error>, asked: nat): (calls: seq<Call>)
    ensures |calls| <= |plan| && (plan != [] ==> calls != [])
  {
    if plan == [] then []
    else [Answer(plan[0], target(asked))] + if target(asked).Some? then [] else Answered(plan[1..], target, asked + 1)
  }

  /** The error it raises, if any. */
  function Raised(plan: seq<Call>, target: nat -> Option<Error>, asked: nat): Option<Error> {
    if plan == [] then None
    else if target(asked).Some? then target(asked)
    else Raised(plan[1..], target, asked + 1)
  }

  lemma AnsweredOne(call: Call, target: nat -> Option<Error>, asked: nat)
    ensures Answered([call], target, asked) == [Answer(call, target(asked))]
    ensures Raised([call], target, asked) == target(asked)
  {}

  lemma {:induction false} AnsweredConcat(a: seq<Call>, b: seq<Call>, target: nat -> Option<Error>, asked: nat)
    ensures Raised(a, target, asked).None? ==>
      && |Answered(a, target, asked)| == |a|
      && Answered(a + b, target, asked) == Answered(a, target, asked) + Answered(b, target, asked + |a|)
      && Raised(a + b, target, asked) == Raised(b, target, asked + |a|)
    ensures Raised(a, target, asked).Some? ==>
      Answered(a + b, target, asked) == Answered(a, target, asked) && Raised(a + b, target, asked) == Raised(a, target, asked)
  {
    hide Answer;
    if a == [] {
      assert a + b == b;
    } else {
      assert (a + b)[0] == a[0] && (a + b)[1..] == a[1..] + b;
      if target(asked).None? {
        AnsweredConcat(a[1..], b, target, asked + 1);
        Reassociate([Answer(a[0], None)], Answered(a[1..], target, asked + 1), Answered(b, target, asked + |a|));
      }
    }
  }

  lemma Reassociate(a: seq<Call>, b: seq<Call>, c: seq<Call>)
    ensures a + (b + c) == (a + b) + c
  {}

  /** Each call made is the planned one; all but the last come back, and the last does unless the plan raises. */
  lemma {:induction false} AnsweredAt(plan: seq<Call>, target: nat -> Option<Error>, asked: nat, i: nat)
    requires i < |Answered(plan, target, asked)|
    ensures Answered(plan, target, asked)[i] == Answer(plan[i], target(asked + i))
    ensures i + 1 < |Answered(plan, target, asked)| ==> target(asked + i).None?
    ensures i + 1 == |Answered(plan, target, asked)| ==> Raised(plan, target, asked) == target(asked + i)
    ensures Raised(plan, target, asked).None? ==> |Answered(plan, target, asked)| == |plan|
  {
    if target(asked).None? {
      if i > 0 {
        AnsweredAt(plan[1..], target, asked + 1, i - 1);
      } else if |plan| > 1 {
        AnsweredAt(plan[1..], target, asked + 1, 0);
      }
    }
  }

  /** A plan raises exactly if one of the next answers is an error. */
  lemma {:induction false} RaisesExactly(plan: seq<Call>, target: nat -> Option<Error>, asked: nat)
    ensures Raised(plan, target, asked).None? <==> forall k :: asked <= k < asked + |plan| ==> target(k).None?
  {
    if plan != [] {
      RaisesExactly(plan[1..], target, asked + 1);
    }
  }

  predicate AppendFor(call: Call, cause: Option<nat>) {
    call.Append? && call.cause == cause
  }

  lemma {:induction false} AllAppends(drain: Drain, start: nat, lastTail: bytes)
    requires drain.frontier <= |drain.arena|
    ensures forall i :: 0 <= i < |drain.All(start, lastTail)| ==> AppendFor(drain.All(start, lastTail)[i], drain.cause)
    decreases if start < drain.frontier then drain.frontier - start else 0
  {
    var next := drain.Next(start, lastTail);
    if next != [] && next[0].chunk != [] {
      AllAppends(drain, start + |next[0].chunk|, next[0].tail);
    }
  }

  predicate BringsNothing(call: Call) {
    call.Append? && call.chunk == [] && call.tail == []
  }

  ghost predicate SomeBringsNothing(calls: seq<Call>) {
    exists i :: 0 <= i < |calls| && BringsNothing(calls[i])
  }

  /** A drain appends neither bytes nor a tail exactly if it starts at a frontier without a tail where a tail has been
    * handed over before. */
  lemma {:induction false} EmptyAppendExactly(drain: Drain, start: nat, lastTail: bytes)
    requires drain.frontier <= |drain.arena| && drain.chunkRecords > 0
    ensures SomeBringsNothing(drain.All(start, lastTail)) <==> start == drain.frontier && drain.tail == [] && lastTail != []
    decreases if start < drain.frontier then drain.frontier - start else 0
  {
    var next, all := drain.Next(start, lastTail), drain.All(start, lastTail);
    if start < drain.frontier {
      NextAppendIs(drain, start, lastTail);
      var end := start + |next[0].chunk|;
      assert next[0].tail == if end == drain.frontier then drain.tail else [];
      EmptyAppendExactly(drain, end, next[0].tail);
      var later := drain.All(end, next[0].tail);
      assert all == next + later;
      forall i | 0 <= i < |all|
        ensures !BringsNothing(all[i])
      {
        if i > 0 {
          assert all[i] == later[i - 1] && !SomeBringsNothing(later);
        }
      }
    } else if start == drain.frontier && drain.tail == [] && lastTail != [] {
      assert BringsNothing(all[0]);
    }
  }

  // ----- a drain

  /** The calls a drain makes, and the error it raises. */
  ghost predicate DrainMade(
    before: seq<Call>, after: seq<Call>, drain: Drain, written: nat, writtenTail: bytes, target: nat -> Option<Error>,
    error: Option<Error>)
  {
    && drain.frontier <= |drain.arena|
    && after == before + Answered(drain.Plan(written, writtenTail), target, |before|)
    && error == Raised(drain.Plan(written, writtenTail), target, |before|)
  }

  /** The same while the drain is under way and has come to `start`. */
  ghost predicate Draining(
    before: seq<Call>, now: seq<Call>, drain: Drain, written: nat, writtenTail: bytes, target: nat -> Option<Error>,
    start: nat, lastTail: bytes)
  {
    && drain.frontier <= |drain.arena|
    && before <= now
    && (now == before ==> start == written && lastTail == writtenTail)
    && (now != before ==> start < drain.frontier || lastTail == drain.tail)
    && (now != before && drain.cause.None? ==> DrainMade(before, now, drain, written, writtenTail, target, None))
    && (drain.cause.Some? ==> Ahead(before, now, drain, written, writtenTail, target, start, lastTail))
  }

  /** What is left of the plan completes the calls made. */
  ghost predicate Ahead(
    before: seq<Call>, now: seq<Call>, drain: Drain, written: nat, writtenTail: bytes, target: nat -> Option<Error>,
    start: nat, lastTail: bytes)
    requires drain.frontier <= |drain.arena|
  {
    var whole, left := drain.All(written, writtenTail), drain.All(start, lastTail);
    && before + Answered(whole, target, |before|) == now + Answered(left, target, |now|)
    && Raised(whole, target, |before|) == Raised(left, target, |now|)
  }

  lemma DrainStarts(calls: seq<Call>, drain: Drain, written: nat, writtenTail: bytes, target: nat -> Option<Error>)
    requires drain.frontier <= |drain.arena|
    ensures Draining(calls, calls, drain, written, writtenTail, target, written, writtenTail)
  {}

  /** The head of a plan is answered: what is left completes the calls as before. */
  lemma PlanGoesOn(now: seq<Call>, call: Call, rest: seq<Call>, target: nat -> Option<Error>)
    ensures var all := now + [Answer(call, target(|now|))];
      && (target(|now|).Some? ==>
            now + Answered([call] + rest, target, |now|) == all && Raised([call] + rest, target, |now|) == target(|now|))
      && (target(|now|).None? ==>
            && now + Answered([call] + rest, target, |now|) == all + Answered(rest, target, |all|)
            && Raised([call] + rest, target, |now|) == Raised(rest, target, |all|))
  {
    hide Answer;
    var answer := Answer(call, target(|now|));
    AnsweredOne(call, target, |now|);
    AnsweredConcat([call], rest, target, |now|);
    Reassociate(now, [answer], Answered(rest, target, |now| + 1));
  }

  lemma AllFollows(drain: Drain, start: nat, lastTail: bytes, call: Call)
    requires drain.frontier <= |drain.arena| && call.Append?
    requires [call] == drain.Next(start, lastTail) && (call.chunk == [] ==> start == drain.frontier)
    ensures drain.All(start, lastTail) == [call] + drain.All(start + |call.chunk|, call.tail)
    ensures start + |call.chunk| < drain.frontier || call.tail == drain.tail
  {}

  /** One more append of a drain. */
  lemma DrainGoesOn(
    before: seq<Call>, now: seq<Call>, drain: Drain, written: nat, writtenTail: bytes, target: nat -> Option<Error>,
    start: nat, lastTail: bytes, call: Call)
    requires Draining(before, now, drain, written, writtenTail, target, start, lastTail)
    requires call.Append? && [call] == drain.Next(start, lastTail) && (call.chunk == [] ==> start == drain.frontier)
    requires drain.cause.None? ==> now == before
    ensures var all := now + [Answer(call, target(|now|))];
      && all != before
      && (target(|now|).Some? ==> DrainMade(before, all, drain, written, writtenTail, target, target(|now|)))
      && (target(|now|).None? ==>
            Draining(before, all, drain, written, writtenTail, target, start + |call.chunk|, call.tail))
  {
    hide Answer, Drain.All, Drain.Next, Answered, Raised;
    AllFollows(drain, start, lastTail, call);
    if drain.cause.Some? {
      PlanGoesOn(now, call, drain.All(start + |call.chunk|, call.tail), target);
    } else {
      AnsweredOne(call, target, |now|);
    }
  }

  /** The next append towards a frontier that is not reached yet. */
  lemma NextAppendIs(drain: Drain, start: nat, lastTail: bytes)
    requires drain.frontier <= |drain.arena| && drain.chunkRecords > 0
    requires start < drain.frontier || (start == drain.frontier && lastTail != drain.tail)
    ensures var end := Min(drain.frontier, start + drain.chunkRecords * RECORD_SIZE);
      && start <= end <= drain.frontier
      && (end == start ==> start == drain.frontier)
      && drain.Next(start, lastTail)
           == [Append(drain.cause, start, drain.arena[start..end], if end == drain.frontier then drain.tail else [], true)]
  {
    assert drain.arena[drain.frontier..drain.frontier] == [];
  }

  /** After an append that came to the frontier, its tail is delivered too. */
  lemma DrainWell(
    before: seq<Call>, now: seq<Call>, drain: Drain, written: nat, writtenTail: bytes, target: nat -> Option<Error>,
    start: nat, lastTail: bytes)
    requires Draining(before, now, drain, written, writtenTail, target, start, lastTail)
    ensures start >= drain.frontier && lastTail != drain.tail ==> now == before
  {}

  /** A drain with nothing more to append is done. */
  lemma DrainEnds(
    before: seq<Call>, now: seq<Call>, drain: Drain, written: nat, writtenTail: bytes, target: nat -> Option<Error>,
    start: nat, lastTail: bytes)
    requires Draining(before, now, drain, written, writtenTail, target, start, lastTail)
    requires start > drain.frontier || (start == drain.frontier && lastTail == drain.tail)
      || (drain.cause.None? && now != before)
    ensures DrainMade(before, now, drain, written, writtenTail, target, None)
  {}

  /** The command with this future has this frontier. */
  predicate FrontierOf(future: nat, highWater: nat, tail: bytes, admitted: seq<Command>) {
    && future < |admitted| && admitted[future].HasFrontier()
    && admitted[future].highWater == highWater && admitted[future].tail == tail
  }

  /** The next append of a drain is justified. */
  lemma NextJustified(calls: seq<Call>, drain: Drain, start: nat, lastTail: bytes, admitted: seq<Command>)
    requires drain.frontier <= |drain.arena| && lastTail == DeliveredTail(calls) && drain.chunkRecords > 0
    requires drain.cause.Some? ==> FrontierOf(drain.cause.value, drain.frontier, drain.tail, admitted)
    requires drain.cause.None? ==> ReadBegun(calls) && (start == drain.frontier ==> lastTail <= drain.tail)
    ensures var next := drain.Next(start, lastTail);
      next != [] ==> Justified(calls, drain.cause, start, next[0].chunk, next[0].tail, admitted)
  {}

  lemma InflightFrontier(
    calls: seq<Call>, admitted: seq<Command>, completions: seq<Completion>, inflight: Pending,
    queue: seq<Pending>, first: Option<Error>, target: nat -> Option<Error>)
    requires LedgerOk(calls, admitted, completions, Some(inflight), queue, first, target)
    ensures NumberedAs(inflight, inflight.future, admitted)
    ensures inflight.command.HasFrontier() ==>
      FrontierOf(inflight.future, inflight.command.highWater, inflight.command.tail, admitted)
  {}

  // ----- an idle turn

  /** A frontier noted under the lock, against what is published now. */
  predicate Behind(frontier: nat, tail: bytes, published: nat, publishedTail: bytes) {
    frontier <= published && (frontier == published ==> tail <= publishedTail)
  }

  /** What an idle turn calls: the next append towards a frontier published by then, if there is one. */
  ghost predicate IdleTurn(
    before: seq<Call>, after: seq<Call>, arena: bytes, chunkRecords: nat, written: nat, writtenTail: bytes,
    published: nat, publishedTail: bytes, target: nat -> Option<Error>)
  {
    exists frontier: nat, tail: bytes, error: Option<Error> ::
      && Behind(published, publishedTail, frontier, tail)
      && DrainMade(before, after, Drain(arena, chunkRecords, None, frontier, tail), written, writtenTail, target, error)
  }

  lemma IdleTurnIs(
    before: seq<Call>, after: seq<Call>, arena: bytes, chunkRecords: nat, written: nat, writtenTail: bytes,
    published: nat, publishedTail: bytes, frontier: nat, tail: bytes, target: nat -> Option<Error>, error: Option<Error>)
    requires Behind(published, publishedTail, frontier, tail)
    requires DrainMade(before, after, Drain(arena, chunkRecords, None, frontier, tail), written, writtenTail, target, error)
    ensures IdleTurn(before, after, arena, chunkRecords, written, writtenTail, published, publishedTail, target)
  {}

  /** With something published that is not handed over, an idle turn makes exactly one append. */
  lemma IdleTurnAppends(
    before: seq<Call>, after: seq<Call>, arena: bytes, chunkRecords: nat, written: nat, writtenTail: bytes,
    published: nat, publishedTail: bytes, target: nat -> Option<Error>)
    requires IdleTurn(before, after, arena, chunkRecords, written, writtenTail, published, publishedTail, target)
    requires written == published ==> writtenTail <= publishedTail
    requires written < published || (written == published && writtenTail != publishedTail)
    ensures |after| == |before| + 1
    ensures after[|before|].Append? && after[|before|].cause.None? && after[|before|].offset == written
  {
    var frontier: nat, tail: bytes, error: Option<Error> :|
      && Behind(published, publishedTail, frontier, tail)
      && DrainMade(before, after, Drain(arena, chunkRecords, None, frontier, tail), written, writtenTail, target, error);
    var next := Drain(arena, chunkRecords, None, frontier, tail).Next(written, writtenTail);
    assert |next| == 1 && next == [next[0]];
    AnsweredOne(next[0], target, |before|);
  }

  // ----- a command

  /** Whether the worker drains the arena before the operation of this command. */
  predicate Drains(state: State, command: Command) {
    if command.CloseCommand? then state.Closing? && state.failure.None? && state.drain
    else command.HasFrontier()
  }

  function DrainFor(pending: Pending, arena: bytes, chunkRecords: nat): Drain
    requires pending.command.HasFrontier()
  {
    Drain(arena, chunkRecords, Some(pending.future), pending.command.highWater, pending.command.tail)
  }

  predicate CanDrain(pending: Pending, arena: bytes) {
    pending.command.HasFrontier() && pending.command.highWater <= |arena|
  }

  /** The plan of a command: its drain, if it has one, and then its operation. */
  function CommandPlan(pending: Pending, drains: bool, arena: bytes, chunkRecords: nat, written: nat, writtenTail: bytes):
    seq<Call>
    requires drains ==> CanDrain(pending, arena)
  {
    (if drains then DrainFor(pending, arena, chunkRecords).All(written, writtenTail) else [])
    + [Operation(pending.future, pending.command, drains, true)]
  }

  /** The calls made in executing a command, and the error raised. */
  ghost predicate Executed(
    before: seq<Call>, after: seq<Call>, pending: Pending, drains: bool, arena: bytes, chunkRecords: nat,
    written: nat, writtenTail: bytes, target: nat -> Option<Error>, error: Option<Error>)
  {
    && (drains ==> CanDrain(pending, arena))
    && var plan := CommandPlan(pending, drains, arena, chunkRecords, written, writtenTail);
    && after == before + Answered(plan, target, |before|)
    && error == Raised(plan, target, |before|)
  }

  /** A command without a drain: its operation is called. */
  lemma JustCalled(
    before: seq<Call>, pending: Pending, arena: bytes, chunkRecords: nat, written: nat, writtenTail: bytes,
    target: nat -> Option<Error>)
    ensures var error := target(|before|);
      Executed(before, before + [Operation(pending.future, pending.command, false, error.None?)], pending, false, arena,
               chunkRecords, written, writtenTail, target, error)
  {
    var operation := Operation(pending.future, pending.command, false, true);
    assert [] + [operation] == [operation];
    AnsweredOne(operation, target, |before|);
  }

  lemma RaisedDrain(
    before: seq<Call>, after: seq<Call>, pending: Pending, arena: bytes, chunkRecords: nat, written: nat, writtenTail: bytes,
    target: nat -> Option<Error>, error: Option<Error>)
    requires CanDrain(pending, arena) && error.Some?
    requires DrainMade(before, after, DrainFor(pending, arena, chunkRecords), written, writtenTail, target, error)
    ensures Executed(before, after, pending, true, arena, chunkRecords, written, writtenTail, target, error)
  {
    AnsweredConcat(DrainFor(pending, arena, chunkRecords).All(written, writtenTail),
                   [Operation(pending.future, pending.command, true, true)], target, |before|);
  }

  lemma DrainedAndCalled(
    before: seq<Call>, drained: seq<Call>, pending: Pending, arena: bytes, chunkRecords: nat, written: nat, writtenTail: bytes,
    target: nat -> Option<Error>)
    requires CanDrain(pending, arena)
    requires DrainMade(before, drained, DrainFor(pending, arena, chunkRecords), written, writtenTail, target, None)
    ensures var error := target(|drained|);
      Executed(before, drained + [Operation(pending.future, pending.command, true, error.None?)], pending, true, arena,
               chunkRecords, written, writtenTail, target, error)
  {
    hide Answered, Raised, Drain.All;
    var all := DrainFor(pending, arena, chunkRecords).All(written, writtenTail);
    var operation := Operation(pending.future, pending.command, true, true);
    AnsweredConcat(all, [operation], target, |before|);
    AnsweredOne(operation, target, |drained|);
    Reassociate(before, Answered(all, target, |before|), [Answer(operation, target(|drained|))]);
  }

  /** A drain calls no operation. */
  lemma DrainedNotCalled(
    before: seq<Call>, drained: seq<Call>, drain: Drain, written: nat, writtenTail: bytes, target: nat -> Option<Error>,
    error: Option<Error>, future: nat)
    requires drain.cause.Some? && NotCalled(before, future)
    requires DrainMade(before, drained, drain, written, writtenTail, target, error)
    ensures NotCalled(drained, future)
  {
    var all := drain.All(written, writtenTail);
    AllAppends(drain, written, writtenTail);
    forall i | |before| <= i < |drained|
      ensures drained[i].Append?
    {
      AnsweredAt(all, target, |before|, i - |before|);
      assert AppendFor(all[i - |before|], drain.cause);
    }
  }

  /** The last of the calls made for a command: its own operation, or an append of its drain that raised. */
  predicate LastCall(call: Call, pending: Pending, drains: bool) {
    || call == Operation(pending.future, pending.command, drains, call.ok)
    || (drains && AppendFor(call, Some(pending.future)) && !call.ok)
  }

  /** The last call came back. */
  predicate LastReturned(calls: seq<Call>) {
    calls != [] && calls[|calls| - 1].ok
  }

  /** The calls made for a command: appends that returned, and one last call. */
  ghost predicate Served(before: seq<Call>, after: seq<Call>, pending: Pending, drains: bool) {
    && |before| < |after| && before <= after
    && (forall i :: |before| <= i < |after| - 1 ==> AppendFor(after[i], Some(pending.future)) && after[i].ok)
    && LastCall(after[|after| - 1], pending, drains)
    && (!drains ==> |after| == |before| + 1)
  }

  lemma PlanShape(pending: Pending, drains: bool, arena: bytes, chunkRecords: nat, written: nat, writtenTail: bytes)
    requires drains ==> CanDrain(pending, arena)
    ensures var plan := CommandPlan(pending, drains, arena, chunkRecords, written, writtenTail);
      && |plan| > 0 && plan[|plan| - 1] == Operation(pending.future, pending.command, drains, true)
      && (forall i :: 0 <= i < |plan| - 1 ==> AppendFor(plan[i], Some(pending.future)))
      && (!drains ==> |plan| == 1)
  {
    if drains {
      AllAppends(DrainFor(pending, arena, chunkRecords), written, writtenTail);
    }
  }

  /** Executing a command calls appends for it and then its operation, exactly once; a call that raises is the last. */
  lemma ExecutionServes(
    before: seq<Call>, after: seq<Call>, pending: Pending, drains: bool, arena: bytes, chunkRecords: nat,
    written: nat, writtenTail: bytes, target: nat -> Option<Error>, error: Option<Error>)
    requires Executed(before, after, pending, drains, arena, chunkRecords, written, writtenTail, target, error)
    ensures Served(before, after, pending, drains)
    ensures LastReturned(after) <==> error.None?
    ensures error.None? ==> after[|after| - 1].Operation?
  {
    var plan := CommandPlan(pending, drains, arena, chunkRecords, written, writtenTail);
    var made := Answered(plan, target, |before|);
    PlanShape(pending, drains, arena, chunkRecords, written, writtenTail);
    hide Answered, Raised, CommandPlan;
    var last := |made| - 1;
    AnsweredAt(plan, target, |before|, last);
    assert after[|after| - 1] == made[last];
    forall i | |before| <= i < |after| - 1
      ensures AppendFor(after[i], Some(pending.future)) && after[i].ok
    {
      AnsweredAt(plan, target, |before|, i - |before|);
    }
  }

  /** Executing a command returned exactly if the writer was healthy and its last call came back. */
  lemma ServedReturns(before: seq<Call>, after: seq<Call>, pending: Pending, drains: bool)
    requires Served(before, after, pending, drains) && NotCalled(before, pending.future)
    ensures Returned(after, pending.future) <==> !Broken(before) && LastReturned(after)
  {
    var n := |after| - 1;
    assert forall i :: 0 <= i < |before| ==> after[i] == before[i];
    if Returned(after, pending.future) {
      var i :| 0 <= i < |after| && ReturnedAt(after, i, pending.future);
      assert i == n;
    }
    if !Broken(before) && after[n].ok {
      assert ReturnedAt(after, n, pending.future);
    }
  }

  // ----- the close

  /** The last call is the close, or the append that raised when draining for it. */
  predicate EndsWithClose(calls: seq<Call>, admitted: seq<Command>) {
    calls != [] && (calls[|calls| - 1].IsClose() || CloseDrainRaised(calls[|calls| - 1], admitted))
  }

  predicate CloseDrainRaised(call: Call, admitted: seq<Command>) {
    && call.Append? && !call.ok && call.cause.Some?
    && call.cause.value < |admitted| && admitted[call.cause.value].CloseCommand?
  }

  /** The execution of a close ends the calls. */
  lemma ClosedByCommand(
    before: seq<Call>, after: seq<Call>, pending: Pending, drains: bool, numbered: seq<Command>, admitted: seq<Command>)
    requires Served(before, after, pending, drains) && pending.command.CloseCommand?
    requires NumberedAs(pending, pending.future, numbered) && numbered <= admitted
    ensures EndsWithClose(after, admitted)
  {}

  /** The operation of a command is called exactly if every append of its drain comes back, that is, if none of the
    * target's next answers is an error, as many as the drain has appends. */
  lemma OperationIsCalled(
    before: seq<Call>, after: seq<Call>, pending: Pending, drains: bool, arena: bytes, chunkRecords: nat,
    written: nat, writtenTail: bytes, target: nat -> Option<Error>, error: Option<Error>)
    requires Executed(before, after, pending, drains, arena, chunkRecords, written, writtenTail, target, error)
    ensures var appends := if drains then |DrainFor(pending, arena, chunkRecords).All(written, writtenTail)| else 0;
      |after| > 0 &&
      (after[|after| - 1].Operation? <==> forall k :: |before| <= k < |before| + appends ==> target(k).None?)
  {
    var drain := if drains then DrainFor(pending, arena, chunkRecords).All(written, writtenTail) else [];
    var operation := Operation(pending.future, pending.command, drains, true);
    RaisesExactly(drain, target, |before|);
    AnsweredConcat(drain, [operation], target, |before|);
    ExecutionServes(before, after, pending, drains, arena, chunkRecords, written, writtenTail, target, error);
    var last := |after| - |before| - 1;
    AnsweredAt(drain + [operation], target, |before|, last);
    if drains {
      AllAppends(DrainFor(pending, arena, chunkRecords), written, writtenTail);
    }
    if Raised(drain, target, |before|).Some? {
      assert drain != [];
      AnsweredAt(drain, target, |before|, last);
      assert AppendFor(drain[last], Some(pending.future));
    } else {
      AnsweredOne(operation, target, |before| + |drain|);
    }
  }

  /** So it is with the close: otherwise the worker exits without ever calling it. */
  lemma CloseIsCalled(
    before: seq<Call>, after: seq<Call>, pending: Pending, drains: bool, arena: bytes, chunkRecords: nat,
    written: nat, writtenTail: bytes, target: nat -> Option<Error>, error: Option<Error>)
    requires Executed(before, after, pending, drains, arena, chunkRecords, written, writtenTail, target, error)
    requires pending.command.CloseCommand?
    ensures var appends := if drains then |DrainFor(pending, arena, chunkRecords).All(written, writtenTail)| else 0;
      CloseCalled(after) <==> forall k :: |before| <= k < |before| + appends ==> target(k).None?
  {
    hide Executed, Drain.All;
    OperationIsCalled(before, after, pending, drains, arena, chunkRecords, written, writtenTail, target, error);
    ExecutionServes(before, after, pending, drains, arena, chunkRecords, written, writtenTail, target, error);
  }
}
