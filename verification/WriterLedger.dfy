/** Which command each target call was made for, and how each future was settled: every admitted command in its turn,
  * once, and no success reported that the target did not return. */
module WriterLedger {
  import opened Bytes
  import opened WriterHistory
  import opened WriterMachine

  // ----- the calls made

  /** The operations called are those of admitted commands, in admission order and each at most once, all of them
    * admitted before the first `bound` futures were used up. */
  ghost predicate OperationsInOrder(calls: seq<Call>, admitted: seq<Command>, bound: nat) {
    && (forall i :: 0 <= i < |calls| && calls[i].Operation? ==>
          calls[i].future < bound && calls[i].future < |admitted| && admitted[calls[i].future] == calls[i].command)
    && (forall i, j :: 0 <= i < j < |calls| && calls[i].Operation? && calls[j].Operation? ==>
          calls[i].future < calls[j].future)
  }

  /** Why an append is made. On an idle turn a READ_BEGIN has returned and no leg was prepared since, and it brings new
    * bytes, or a longer tail at the same place. For a command it stays within the command's frontier, ends with its tail
    * when it gets there, and may be empty only there and only if the tail differs from the one delivered. */
  ghost predicate Justified(
    before: seq<Call>, cause: Option<nat>, offset: nat, chunk: bytes, tail: bytes, admitted: seq<Command>)
  {
    match cause
    case None => ReadBegun(before) && (chunk == [] ==> DeliveredTail(before) < tail)
    case Some(future) =>
      && future < |admitted|
      && admitted[future].HasFrontier()
      && offset + |chunk| <= admitted[future].highWater
      && (offset + |chunk| == admitted[future].highWater ==> tail == admitted[future].tail)
      && (chunk == [] ==> offset == admitted[future].highWater && tail != DeliveredTail(before))
  }

  ghost predicate AppendJustified(before: seq<Call>, call: Call, admitted: seq<Command>) {
    call.Append? ==> Justified(before, call.cause, call.offset, call.chunk, call.tail, admitted)
  }

  ghost predicate AppendsJustified(calls: seq<Call>, admitted: seq<Command>) {
    forall i :: 0 <= i < |calls| ==> AppendJustified(calls[..i], calls[i], admitted)
  }

  /** Each call returns or raises as the target answers it. */
  ghost predicate Answers(calls: seq<Call>, target: nat -> Option<Error>) {
    forall i :: 0 <= i < |calls| ==> (calls[i].ok <==> target(i).None?)
  }

  // ----- the futures settled

  /** The operation of this command returned, and nothing had raised before it. */
  ghost predicate Returned(calls: seq<Call>, future: nat) {
    exists i :: 0 <= i < |calls| && ReturnedAt(calls, i, future)
  }

  ghost predicate ReturnedAt(calls: seq<Call>, i: nat, future: nat)
    requires i < |calls|
  {
    && calls[i].Operation? && calls[i].future == future && calls[i].ok
    && forall j :: 0 <= j < i ==> calls[j].ok
  }

  /** A future is settled with a result exactly if its operation returned before any failure, and with the first
    * failure otherwise. */
  ghost predicate CompletionFits(completion: Completion, calls: seq<Call>, first: Option<Error>) {
    && (completion.error.None? <==> Returned(calls, completion.future))
    && (completion.error.Some? ==> completion.error == first)
  }

  ghost predicate CompletionsFit(completions: seq<Completion>, calls: seq<Call>, first: Option<Error>) {
    forall i :: 0 <= i < |completions| ==> CompletionFits(completions[i], calls, first)
  }

  // ----- the queue

  predicate NumberedAs(pending: Pending, number: nat, admitted: seq<Command>) {
    pending.future == number < |admitted| && pending.command == admitted[number]
  }

  /** The queue holds the last admitted commands, in order. */
  ghost predicate Numbered(queue: seq<Pending>, admitted: seq<Command>) {
    && |queue| <= |admitted|
    && forall i :: 0 <= i < |queue| ==> NumberedAs(queue[i], |admitted| - |queue| + i, admitted)
  }

  ghost predicate InflightFits(
    inflight: Option<Pending>, completions: seq<Completion>, admitted: seq<Command>, bound: nat)
  {
    && (forall i :: 0 <= i < |completions| ==> completions[i].future < bound)
    && (inflight.Some? ==>
          && NumberedAs(inflight.value, inflight.value.future, admitted)
          && inflight.value.future < bound
          && forall i :: 0 <= i < |completions| ==> completions[i].future != inflight.value.future)
  }

  /** How many futures are neither waiting nor failing. */
  function Begun(queue: seq<Pending>, admitted: seq<Command>): nat {
    if |queue| <= |admitted| then |admitted| - |queue| else 0
  }

  ghost predicate LedgerOk(
    calls: seq<Call>, admitted: seq<Command>, completions: seq<Completion>, inflight: Option<Pending>,
    queue: seq<Pending>, first: Option<Error>, target: nat -> Option<Error>)
  {
    && Numbered(queue, admitted)
    && OperationsInOrder(calls, admitted, Begun(queue, admitted))
    && AppendsJustified(calls, admitted)
    && Answers(calls, target)
    && CompletionsFit(completions, calls, first)
    && InflightFits(inflight, completions, admitted, Begun(queue, admitted))
  }

  /** The operation of this command, and of every later one, is still to come. */
  ghost predicate NotCalled(calls: seq<Call>, future: nat) {
    forall i :: 0 <= i < |calls| && calls[i].Operation? ==> calls[i].future < future
  }

  // ----- steps

  lemma AdmitKeepsLedger(
    calls: seq<Call>, admitted: seq<Command>, completions: seq<Completion>, inflight: Option<Pending>,
    queue: seq<Pending>, first: Option<Error>, target: nat -> Option<Error>, pending: Pending)
    requires LedgerOk(calls, admitted, completions, inflight, queue, first, target)
    requires pending.future == |admitted|
    ensures LedgerOk(calls, admitted + [pending.command], completions, inflight, queue + [pending], first, target)
  {
    hide CompletionsFit, Answers;
    var all, more := admitted + [pending.command], queue + [pending];
    forall i | 0 <= i < |more|
      ensures NumberedAs(more[i], |all| - |more| + i, all)
    {
      if i < |queue| {
        assert NumberedAs(queue[i], |admitted| - |queue| + i, admitted);
      }
    }
    forall i | 0 <= i < |calls|
      ensures AppendJustified(calls[..i], calls[i], all)
    {
      assert AppendJustified(calls[..i], calls[i], admitted);
    }
  }

  lemma PopKeepsLedger(
    calls: seq<Call>, admitted: seq<Command>, completions: seq<Completion>, queue: seq<Pending>,
    first: Option<Error>, target: nat -> Option<Error>)
    requires LedgerOk(calls, admitted, completions, None, queue, first, target) && queue != []
    ensures LedgerOk(calls, admitted, completions, Some(queue[0]), queue[1..], first, target)
    ensures NotCalled(calls, queue[0].future)
  {
    hide CompletionsFit, Answers, AppendsJustified;
    assert NumberedAs(queue[0], |admitted| - |queue|, admitted);
    forall i | 0 <= i < |queue[1..]|
      ensures NumberedAs(queue[1..][i], |admitted| - |queue[1..]| + i, admitted)
    {
      assert NumberedAs(queue[i + 1], |admitted| - |queue| + (i + 1), admitted);
    }
  }

  /** Nothing an unsettled call does changes what has been settled. */
  lemma ReturnedStays(calls: seq<Call>, call: Call, future: nat)
    requires call.Operation? ==> call.future != future
    ensures Returned(calls + [call], future) <==> Returned(calls, future)
  {
    var all := calls + [call];
    if Returned(calls, future) {
      var i :| 0 <= i < |calls| && ReturnedAt(calls, i, future);
      assert ReturnedAt(all, i, future);
    }
    if Returned(all, future) {
      var i :| 0 <= i < |all| && ReturnedAt(all, i, future);
      assert forall j :: 0 <= j < i ==> calls[j] == all[j];
      assert ReturnedAt(calls, i, future);
    }
  }

  lemma CallKeepsLedger(
    calls: seq<Call>, call: Call, admitted: seq<Command>, completions: seq<Completion>, inflight: Option<Pending>,
    queue: seq<Pending>, first: Option<Error>, target: nat -> Option<Error>, raised: Option<Error>)
    requires LedgerOk(calls, admitted, completions, inflight, queue, first, target)
    requires call.ok <==> target(|calls|).None?
    requires first.Some? ==> raised == first
    requires AppendJustified(calls, call, admitted)
    requires call.Operation? ==>
      && inflight.Some? && call.future == inflight.value.future && call.command == inflight.value.command
      && NotCalled(calls, call.future)
    ensures LedgerOk(calls + [call], admitted, completions, inflight, queue, raised, target)
  {
    hide Numbered, AppendJustified;
    var all := calls + [call];
    assert all[..|calls|] == calls;
    forall i | 0 <= i < |all|
      ensures AppendJustified(all[..i], all[i], admitted)
    {
      assert all[..i] == if i < |calls| then calls[..i] else calls;
    }
    forall i | 0 <= i < |completions|
      ensures CompletionFits(completions[i], all, raised)
    {
      assert CompletionFits(completions[i], calls, first);
      ReturnedStays(calls, call, completions[i].future);
    }
  }

  /** A waiting command that a failure takes down has never been called. */
  lemma FailHeadKeepsLedger(
    calls: seq<Call>, admitted: seq<Command>, completions: seq<Completion>, inflight: Option<Pending>,
    queue: seq<Pending>, first: Option<Error>, target: nat -> Option<Error>)
    requires LedgerOk(calls, admitted, completions, inflight, queue, first, target) && queue != [] && first.Some?
    ensures LedgerOk(calls, admitted, completions + [Completion(queue[0].future, first)], inflight, queue[1..], first, target)
  {
    hide Answers, AppendsJustified;
    assert NumberedAs(queue[0], |admitted| - |queue|, admitted);
    forall i | 0 <= i < |queue[1..]|
      ensures NumberedAs(queue[1..][i], |admitted| - |queue[1..]| + i, admitted)
    {
      assert NumberedAs(queue[i + 1], |admitted| - |queue| + (i + 1), admitted);
    }
    assert !Returned(calls, queue[0].future);
  }

  lemma SettleKeepsLedger(
    calls: seq<Call>, admitted: seq<Command>, completions: seq<Completion>, inflight: Pending,
    queue: seq<Pending>, first: Option<Error>, target: nat -> Option<Error>, error: Option<Error>)
    requires LedgerOk(calls, admitted, completions, Some(inflight), queue, first, target)
    requires error.None? <==> Returned(calls, inflight.future)
    requires error.Some? ==> error == first
    ensures LedgerOk(calls, admitted, completions + [Completion(inflight.future, error)], None, queue, first, target)
  {
    hide Answers, AppendsJustified, Numbered, OperationsInOrder, Returned;
  }

  // ----- commands that fail or never start

  lemma NeverCalledNeverReturned(calls: seq<Call>, future: nat)
    requires NotCalled(calls, future)
    ensures !Returned(calls, future)
  {}

  /** The completions of commands that a failure takes off the queue. A close is not among them. */
  function FailedWith(queue: seq<Pending>, error: Error): seq<Completion> {
    if queue == [] || queue[0].command.CloseCommand? then []
    else [Completion(queue[0].future, Some(error))] + FailedWith(queue[1..], error)
  }

  /** The close that stays on the queue. */
  function KeptClose(queue: seq<Pending>): seq<Pending> {
    if queue == [] then [] else if queue[0].command.CloseCommand? then [queue[0]] else KeptClose(queue[1..])
  }

  // ----- what a whole ledger says

  lemma {:induction false} SettledHas(completions: seq<Completion>, future: nat) returns (i: nat)
    requires Settled(completions)[future] > 0
    ensures i < |completions| && completions[i].future == future
    decreases |completions|
  {
    var n := |completions| - 1;
    if completions[n].future == future {
      i := n;
    } else {
      i := SettledHas(completions[..n], future);
    }
  }

  /** The futures whose operations were called, in the order of the calls. */
  function Called(calls: seq<Call>): seq<nat>
    decreases |calls|
  {
    if calls == [] then []
    else
      var last := calls[|calls| - 1];
      Called(calls[..|calls| - 1]) + (if last.Operation? then [last.future] else [])
  }

  /** The operations themselves. */
  function Operations(calls: seq<Call>): seq<Command>
    decreases |calls|
  {
    if calls == [] then []
    else
      var last := calls[|calls| - 1];
      Operations(calls[..|calls| - 1]) + (if last.Operation? then [last.command] else [])
  }

  ghost predicate Increasing(numbers: seq<nat>) {
    forall j, k :: 0 <= j < k < |numbers| ==> numbers[j] < numbers[k]
  }

  lemma {:induction false} CalledInOrder(calls: seq<Call>, admitted: seq<Command>, bound: nat)
    requires OperationsInOrder(calls, admitted, bound)
    ensures Increasing(Called(calls)) && |Operations(calls)| == |Called(calls)|
    ensures forall k :: 0 <= k < |Called(calls)| ==>
      Called(calls)[k] < |admitted| && Operations(calls)[k] == admitted[Called(calls)[k]]
    ensures NotCalled(calls, bound)
    ensures forall future :: future in Called(calls) ==>
      exists i :: 0 <= i < |calls| && calls[i].Operation? && calls[i].future == future
    decreases |calls|
  {
    if calls != [] {
      var front, last := calls[..|calls| - 1], calls[|calls| - 1];
      CalledInOrder(front, admitted, bound);
      forall future | future in Called(calls)
        ensures exists i :: 0 <= i < |calls| && calls[i].Operation? && calls[i].future == future
      {
        if future in Called(front) {
          var i :| 0 <= i < |front| && front[i].Operation? && front[i].future == future;
          assert calls[i].future == future;
        } else {
          assert last.Operation? && last.future == future;
        }
      }
      forall k | 0 <= k < |Called(front)| && last.Operation?
        ensures Called(front)[k] < last.future
      {
        assert Called(front)[k] in Called(front);
      }
    }
  }

  lemma {:induction false} CalledHas(calls: seq<Call>, i: nat)
    requires i < |calls| && calls[i].Operation?
    ensures calls[i].future in Called(calls)
    decreases |calls|
  {
    if i < |calls| - 1 {
      CalledHas(calls[..|calls| - 1], i);
    }
  }

  lemma {:induction false} AtLeast(numbers: seq<nat>, k: nat)
    requires Increasing(numbers) && k < |numbers|
    ensures numbers[k] >= k
  {
    if k > 0 {
      AtLeast(numbers, k - 1);
    }
  }

  /** Increasing numbers below `n` among which none is missing are all of them, in order. */
  lemma {:induction false} Gapless(numbers: seq<nat>, n: nat, k: nat)
    requires Increasing(numbers) && (forall number <- numbers :: number < n)
    requires forall number: nat :: number < n ==> number in numbers
    requires k <= n
    ensures k <= |numbers| && forall j :: 0 <= j < k ==> numbers[j] == j
  {
    if k > 0 {
      Gapless(numbers, n, k - 1);
      var last: nat := k - 1;
      assert last in numbers;
      var j :| 0 <= j < |numbers| && numbers[j] == last;
      AtLeast(numbers, j);
    }
  }

  /** When the worker is done without a failure, it has called the operations of the admitted commands, of each exactly
    * once and in the order they were admitted, and all of them returned. */
  lemma CleanRunServesAll(
    calls: seq<Call>, admitted: seq<Command>, completions: seq<Completion>, first: Option<Error>,
    target: nat -> Option<Error>)
    requires LedgerOk(calls, admitted, completions, None, [], first, target)
    requires SettledOnce(completions, |admitted|) && first.None?
    ensures Operations(calls) == admitted
    ensures forall future: nat :: future < |admitted| ==> Returned(calls, future)
  {
    forall future: nat | future < |admitted|
      ensures Returned(calls, future) && future in Called(calls)
    {
      var i := SettledHas(completions, future);
      assert CompletionFits(completions[i], calls, first);
      var at :| 0 <= at < |calls| && ReturnedAt(calls, at, future);
      CalledHas(calls, at);
    }
    CalledInOrder(calls, admitted, Begun([], admitted));
    Gapless(Called(calls), |admitted|, |admitted|);
    if |Called(calls)| > |admitted| {
      AtLeast(Called(calls), |admitted|);
    }
  }

  /** Every future is accounted for. */
  lemma {:induction false} SettledSize(completions: seq<Completion>)
    ensures |Settled(completions)| == |completions|
    decreases |completions|
  {
    if completions != [] {
      SettledSize(completions[..|completions| - 1]);
    }
  }

  lemma {:induction false} WaitingSize(queue: seq<Pending>)
    ensures |Waiting(queue)| == |queue|
  {
    if queue != [] {
      WaitingSize(queue[1..]);
    }
  }

  lemma {:induction false} IssuedSize(count: nat)
    ensures |Issued(count)| == count
  {
    if count > 0 {
      IssuedSize(count - 1);
    }
  }

  lemma FuturesCount(
    completions: seq<Completion>, inflight: Option<Pending>, failing: seq<Pending>, commands: seq<Pending>, nextFuture: nat)
    requires FuturesOk(completions, inflight, failing, commands, nextFuture)
    ensures |completions| + (if inflight.Some? then 1 else 0) + |failing| + |commands| == nextFuture
  {
    SettledSize(completions);
    WaitingSize(failing);
    WaitingSize(commands);
    IssuedSize(nextFuture);
  }

  /** An idle append lies between a READ_BEGIN and the next leg, and never repeats itself: it brings bytes, or a longer
    * tail where the delivered bytes end. */
  lemma IdleAppendExtends(calls: seq<Call>, i: nat, admitted: seq<Command>)
    requires AppendsJustified(calls, admitted) && i < |calls| && calls[i].Append? && calls[i].cause.None?
    ensures ReadBegun(calls[..i])
    ensures calls[i].chunk != [] || DeliveredTail(calls[..i]) < calls[i].tail
  {
    assert AppendJustified(calls[..i], calls[i], admitted);
  }

  /** An append that brings neither bytes nor a tail is made only for a command whose own tail is empty, at its frontier,
    * after a tail had been delivered there. */
  lemma EmptyAppendIsResend(
    calls: seq<Call>, i: nat, arena: bytes, published: nat, publishedTail: bytes, admitted: seq<Command>)
    requires AppendsJustified(calls, admitted) && CallsFit(calls, arena, published, publishedTail)
    requires i < |calls| && calls[i].Append? && calls[i].chunk == [] && calls[i].tail == []
    ensures calls[i].cause.Some? && calls[i].cause.value < |admitted|
    ensures var command := admitted[calls[i].cause.value];
      && command.HasFrontier()
      && command.highWater == |Delivered(calls[..i])|
      && command.tail == []
      && DeliveredTail(calls[..i]) != []
  {
    assert AppendJustified(calls[..i], calls[i], admitted);
    CallFitsAt(calls, i, arena, published, publishedTail);
  }
}
