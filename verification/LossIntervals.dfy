/** Counting confirmed losses: overlapping reports of one attempt count once. */
module LossIntervals {
  import opened Intervals

  /** The numbers at which a maximal run of consecutive members begins. */
  function RunStarts(numbers: set<int>): set<int> {
    set x | x in numbers && Begins(numbers, x)
  }

  predicate Begins(numbers: set<int>, x: int) {
    x - 1 !in numbers
  }

  /** The state of the sweep: everything seen so far, of which [currentStart, currentEnd) is the last run. */
  ghost predicate Swept(seen: set<int>, components: nat, total: int, currentStart: int, currentEnd: int) {
    && currentStart < currentEnd
    && (forall x :: x in seen ==> x < currentEnd)
    && (forall x :: currentStart <= x < currentEnd ==> x in seen)
    && |seen| == total + (currentEnd - currentStart)
    && |RunStarts(seen)| == components
  }

  lemma SweepStarts(first: Interval)
    requires first.start < first.end
    ensures Swept(first.Numbers(), 1, 0, first.start, first.end)
  {
    SpanSize(first.start, first.end);
    assert RunStarts(first.Numbers()) == {first.start};
  }

  lemma SweepJumps(seen: set<int>, components: nat, total: int, currentStart: int, currentEnd: int, item: Interval)
    requires Swept(seen, components, total, currentStart, currentEnd)
    requires currentEnd < item.start < item.end
    ensures Swept(seen + item.Numbers(), components + 1, total + currentEnd - currentStart, item.start, item.end)
  {
    GrowBy(seen, item.start, item.end);
    var grown := seen + item.Numbers();
    assert RunStarts(grown) == RunStarts(seen) + {item.start};
  }

  /** Numbers that follow on from a run start no run of their own. */
  lemma RunContinues(seen: set<int>, end: int, newEnd: int)
    requires end - 1 in seen && end <= newEnd
    requires forall x :: x in seen ==> x < end
    ensures RunStarts(seen + Interval(end, newEnd).Numbers()) == RunStarts(seen)
  {
    var grown := seen + Interval(end, newEnd).Numbers();
    forall x
      ensures x in RunStarts(grown) <==> x in RunStarts(seen)
    {
      assert x in grown <==> x in seen || end <= x < newEnd;
      assert x - 1 in grown <==> x - 1 in seen || end <= x - 1 < newEnd;
    }
  }

  lemma SweepExtends(seen: set<int>, components: nat, total: int, currentStart: int, currentEnd: int, item: Interval)
    requires Swept(seen, components, total, currentStart, currentEnd)
    requires currentStart <= item.start <= currentEnd && item.start < item.end
    ensures
      var end := if currentEnd < item.end then item.end else currentEnd;
      Swept(seen + item.Numbers(), components, total, currentStart, end)
  {
    hide RunStarts;
    var end := if currentEnd < item.end then item.end else currentEnd;
    assert currentEnd - 1 in seen;
    RunContinues(seen, currentEnd, end);
    GrowBy(seen, currentEnd, end);
    assert seen + item.Numbers() == seen + Interval(currentEnd, end).Numbers();
  }

  /** `_union_interval_stats`: how many maximal runs the union has, and how many numbers. Touching intervals are one
    * run. */
  method UnionIntervalStats(intervals: seq<Interval>) returns (components: nat, total: int)
    requires forall i :: 0 <= i < |intervals| ==> intervals[i].start < intervals[i].end
    ensures components == |RunStarts(Union(intervals))|
    ensures total == |Union(intervals)|
  {
    hide Swept, RunStarts, Union, Interval.Numbers;
    var ordered := Ascending(intervals);
    AscendingFacts(intervals);
    forall i | 0 <= i < |ordered|
      ensures ordered[i].start < ordered[i].end
    {
      AscendingMembers(intervals, i);
    }
    if ordered == [] {
      NoRuns();
      return 0, 0;
    }
    components, total := 1, 0;
    var currentStart, currentEnd := ordered[0].start, ordered[0].end;
    SweepStarts(ordered[0]);
    FirstUnion(ordered);
    for k := 1 to |ordered|
      invariant Swept(Union(ordered[..k]), components, total, currentStart, currentEnd)
      invariant currentStart <= ordered[k - 1].start
    {
      var item := ordered[k];
      NextUnion(ordered, k);
      assert ordered[k - 1].start <= item.start;
      if item.start > currentEnd {
        SweepJumps(Union(ordered[..k]), components, total, currentStart, currentEnd, item);
        total := total + currentEnd - currentStart;
        currentStart, currentEnd := item.start, item.end;
        components := components + 1;
      } else {
        SweepExtends(Union(ordered[..k]), components, total, currentStart, currentEnd, item);
        currentEnd := if currentEnd < item.end then item.end else currentEnd;
      }
    }
    assert ordered[..|ordered|] == ordered;
    SweepEnds(Union(ordered), components, total, currentStart, currentEnd);
    total := total + currentEnd - currentStart;
  }

  lemma NoRuns()
    ensures RunStarts({}) == {} && Union([]) == {}
  {}

  lemma SweepEnds(seen: set<int>, components: nat, total: int, currentStart: int, currentEnd: int)
    requires Swept(seen, components, total, currentStart, currentEnd)
    ensures |seen| == total + (currentEnd - currentStart) && |RunStarts(seen)| == components
  {}

  // ----- facts of several attempts

  const RECORD_SIZE: nat := 444

  datatype Fact = Fact(attemptId: string, occurredAt: int, lost: Interval)

  function Relevant(facts: seq<Fact>, start: int, end: int): (relevant: seq<Fact>)
    ensures forall i :: 0 <= i < |relevant| ==> relevant[i] in facts
  {
    if facts == [] then []
    else (if start <= facts[0].occurredAt <= end then [facts[0]] else []) + Relevant(facts[1..], start, end)
  }

  /** What one attempt lost, according to the facts. */
  function LossesOf(facts: seq<Fact>, attempt: string): seq<Interval>
    decreases |facts|
  {
    if facts == [] then []
    else
      var last := facts[|facts| - 1];
      LossesOf(facts[..|facts| - 1], attempt) + (if last.attemptId == attempt then [last.lost] else [])
  }

  /** The records lost, each named by its attempt and its sequence number. */
  function LostRecords(facts: seq<Fact>): set<(string, int)>
    decreases |facts|
  {
    if facts == [] then {}
    else LostRecords(facts[..|facts| - 1]) + Tagged(facts[|facts| - 1].attemptId, facts[|facts| - 1].lost.Numbers())
  }

  function Tagged(attempt: string, numbers: set<int>): set<(string, int)> {
    set x | x in numbers :: (attempt, x)
  }

  /** The first records of the runs of losses. */
  function LossRuns(lost: set<(string, int)>): set<(string, int)> {
    set r | r in lost && BeginsRun(lost, r)
  }

  predicate BeginsRun(lost: set<(string, int)>, r: (string, int)) {
    (r.0, r.1 - 1) !in lost
  }

  lemma {:induction false} TaggedSize(attempt: string, numbers: set<int>)
    ensures |Tagged(attempt, numbers)| == |numbers|
    decreases |numbers|
  {
    if numbers != {} {
      var x := Any(numbers);
      TaggedSize(attempt, numbers - {x});
      assert Tagged(attempt, numbers) == Tagged(attempt, numbers - {x}) + {(attempt, x)};
    }
  }

  lemma {:induction false} LostByAttempt(facts: seq<Fact>, attempt: string, x: int)
    ensures (attempt, x) in LostRecords(facts) <==> x in Union(LossesOf(facts, attempt))
    decreases |facts|
  {
    if facts != [] {
      var n := |facts| - 1;
      LostByAttempt(facts[..n], attempt, x);
      var before := LossesOf(facts[..n], attempt);
      assert (before + [facts[n].lost])[..|before|] == before;
      assert before + [] == before;
    }
  }

  /** Attempts in order of first appearance, as a Python dictionary keeps its keys. */
  function Attempts(facts: seq<Fact>): (keys: seq<string>)
    ensures forall i, j :: 0 <= i < j < |keys| ==> keys[i] != keys[j]
    ensures forall i :: 0 <= i < |facts| ==> facts[i].attemptId in keys
    decreases |facts|
  {
    if facts == [] then []
    else
      var keys := Attempts(facts[..|facts| - 1]);
      var last := facts[|facts| - 1];
      assert forall i :: 0 <= i < |facts| - 1 ==> facts[..|facts| - 1][i] == facts[i];
      if last.attemptId in keys then keys else keys + [last.attemptId]
  }

  /** The part of `lost` that belongs to the first attempts. */
  function PartOf(lost: set<(string, int)>, keys: seq<string>): set<(string, int)> {
    set r | r in lost && r.0 in keys
  }

  lemma TaggedHas(attempt: string, numbers: set<int>, r: (string, int))
    ensures r in Tagged(attempt, numbers) <==> r.0 == attempt && r.1 in numbers
  {
    assert r == (r.0, r.1);
    var x := r.1;
    assert x in numbers ==> (attempt, x) in Tagged(attempt, numbers);
  }

  lemma PartSplits(lost: set<(string, int)>, keys: seq<string>, attempt: string, numbers: set<int>)
    requires forall x :: (attempt, x) in lost <==> x in numbers
    ensures PartOf(lost, keys + [attempt]) == PartOf(lost, keys) + Tagged(attempt, numbers)
  {
    forall r
      ensures r in PartOf(lost, keys + [attempt]) <==> r in PartOf(lost, keys) + Tagged(attempt, numbers)
    {
      TaggedHas(attempt, numbers, r);
      assert r.0 in keys + [attempt] <==> r.0 in keys || r.0 == attempt;
      var x := r.1;
      assert (attempt, x) in lost <==> x in numbers;
      if r.0 == attempt {
        assert r == (attempt, r.1);
      }
    }
  }

  lemma PartGrows(facts: seq<Fact>, keys: seq<string>, attempt: string)
    requires attempt !in keys
    ensures
      var lost := LostRecords(facts);
      var numbers := Union(LossesOf(facts, attempt));
      && |PartOf(lost, keys + [attempt])| == |PartOf(lost, keys)| + |numbers|
      && |PartOf(LossRuns(lost), keys + [attempt])| == |PartOf(LossRuns(lost), keys)| + |RunStarts(numbers)|
  {
    var lost := LostRecords(facts);
    var numbers := Union(LossesOf(facts, attempt));
    forall x
      ensures (attempt, x) in lost <==> x in numbers
    {
      LostByAttempt(facts, attempt, x);
    }
    forall x
      ensures (attempt, x) in LossRuns(lost) <==> x in RunStarts(numbers)
    {
      assert (attempt, x - 1) in lost <==> x - 1 in numbers;
    }
    PartSplits(lost, keys, attempt, numbers);
    PartSplits(LossRuns(lost), keys, attempt, RunStarts(numbers));
    TaggedSize(attempt, numbers);
    TaggedSize(attempt, RunStarts(numbers));
  }

  lemma {:induction false} AllAttempts(facts: seq<Fact>)
    ensures forall r :: r in LostRecords(facts) ==> r.0 in Attempts(facts)
    decreases |facts|
  {
    if facts != [] {
      AllAttempts(facts[..|facts| - 1]);
    }
  }

  lemma {:induction false} LossesNonempty(facts: seq<Fact>, attempt: string)
    requires forall i :: 0 <= i < |facts| ==> facts[i].lost.start < facts[i].lost.end
    ensures forall i :: 0 <= i < |LossesOf(facts, attempt)| ==>
      LossesOf(facts, attempt)[i].start < LossesOf(facts, attempt)[i].end
    decreases |facts|
  {
    if facts != [] {
      LossesNonempty(facts[..|facts| - 1], attempt);
    }
  }

  lemma NoPart(lost: set<(string, int)>, keys: seq<string>)
    ensures PartOf(lost, keys[..0]) == {}
  {}

  lemma AllParts(facts: seq<Fact>)
    ensures PartOf(LostRecords(facts), Attempts(facts)) == LostRecords(facts)
    ensures PartOf(LossRuns(LostRecords(facts)), Attempts(facts)) == LossRuns(LostRecords(facts))
  {
    AllAttempts(facts);
  }

  // ----- the same, said of the facts

  /** Some fact of the window says that this attempt lost the record with this number. */
  ghost predicate SaysLost(facts: seq<Fact>, start: int, end: int, attempt: string, x: int) {
    exists i ::
      && 0 <= i < |facts|
      && start <= facts[i].occurredAt <= end
      && facts[i].attemptId == attempt
      && facts[i].lost.start <= x < facts[i].lost.end
  }

  ghost predicate AreLost(facts: seq<Fact>, start: int, end: int, lost: set<(string, int)>) {
    forall attempt, x :: (attempt, x) in lost <==> SaysLost(facts, start, end, attempt, x)
  }

  /** The records whose predecessor the attempt did not lose. */
  ghost predicate AreRuns(facts: seq<Fact>, start: int, end: int, runs: set<(string, int)>) {
    forall attempt, x :: (attempt, x) in runs <==>
      SaysLost(facts, start, end, attempt, x) && !SaysLost(facts, start, end, attempt, x - 1)
  }

  /** Each lost record counts once, and each run of them once. */
  ghost predicate CountOnce(facts: seq<Fact>, start: int, end: int, records: int, runs: int) {
    && (exists lost :: AreLost(facts, start, end, lost) && records == |lost|)
    && (exists firsts :: AreRuns(facts, start, end, firsts) && runs == |firsts|)
  }

  /** Every fact of the window is relevant. */
  lemma {:induction false} RelevantAre(facts: seq<Fact>, start: int, end: int, fact: Fact)
    ensures fact in Relevant(facts, start, end) <==> fact in facts && start <= fact.occurredAt <= end
  {
    if facts != [] {
      RelevantAre(facts[1..], start, end, fact);
    }
  }

  lemma {:induction false} LostAre(facts: seq<Fact>, attempt: string, x: int)
    ensures (attempt, x) in LostRecords(facts) <==>
      exists i :: 0 <= i < |facts| && facts[i].attemptId == attempt && facts[i].lost.Has(x)
    decreases |facts|
  {
    if facts != [] {
      var n := |facts| - 1;
      LostAre(facts[..n], attempt, x);
      TaggedHas(facts[n].attemptId, facts[n].lost.Numbers(), (attempt, x));
      if i :| 0 <= i < |facts| && facts[i].attemptId == attempt && facts[i].lost.Has(x) {
        assert i < n ==> facts[..n][i] == facts[i];
      }
    }
  }

  lemma LostInWindow(facts: seq<Fact>, start: int, end: int)
    ensures AreLost(facts, start, end, LostRecords(Relevant(facts, start, end)))
  {
    hide LostRecords, Relevant;
    var relevant := Relevant(facts, start, end);
    forall attempt, x
      ensures (attempt, x) in LostRecords(relevant) <==> SaysLost(facts, start, end, attempt, x)
    {
      LostAre(relevant, attempt, x);
      if i :| 0 <= i < |relevant| && relevant[i].attemptId == attempt && relevant[i].lost.Has(x) {
        RelevantAre(facts, start, end, relevant[i]);
      }
      if i :| 0 <= i < |facts| && start <= facts[i].occurredAt <= end && facts[i].attemptId == attempt
              && facts[i].lost.start <= x < facts[i].lost.end {
        RelevantAre(facts, start, end, facts[i]);
        var j :| 0 <= j < |relevant| && relevant[j] == facts[i];
        assert relevant[j].lost.Has(x);
      }
    }
  }

  lemma CountedOnce(facts: seq<Fact>, start: int, end: int)
    ensures
      var lost := LostRecords(Relevant(facts, start, end));
      CountOnce(facts, start, end, |lost|, |LossRuns(lost)|)
  {
    hide LostRecords, Relevant, SaysLost;
    LostInWindow(facts, start, end);
    var lost := LostRecords(Relevant(facts, start, end));
    forall attempt, x
      ensures (attempt, x) in LossRuns(lost) <==>
        SaysLost(facts, start, end, attempt, x) && !SaysLost(facts, start, end, attempt, x - 1)
    {
      var r := (attempt, x);
      assert r in LossRuns(lost) <==> r in lost && (attempt, x - 1) !in lost;
    }
    assert AreRuns(facts, start, end, LossRuns(lost));
  }

  /** The three totals of `_QualityAccumulator` that confirmed losses feed. */
  class QualityAccumulator {
    var lossEvents: nat
    var missingRecords: int
    var missingRawBytes: int

    constructor ()
      ensures lossEvents == 0 && missingRecords == 0 && missingRawBytes == 0
    {
      lossEvents, missingRecords, missingRawBytes := 0, 0, 0;
    }

    /** `_accumulate_confirmed_loss_facts`: however the facts of an attempt overlap, each lost record is counted once
      * and each maximal run of them is one event. */
    method AccumulateConfirmedLosses(facts: seq<Fact>, start: int, end: int)
      requires forall i :: 0 <= i < |facts| ==> facts[i].lost.start < facts[i].lost.end
      modifies this
      ensures CountOnce(facts, start, end, missingRecords - old(missingRecords), lossEvents - old(lossEvents))
      ensures missingRawBytes - old(missingRawBytes) == 444 * (missingRecords - old(missingRecords))
    {
      hide LostRecords, LossesOf, Union, RunStarts, LossRuns, PartOf, CountOnce;
      CountedOnce(facts, start, end);
      var relevant := Relevant(facts, start, end);
      ghost var lost := LostRecords(relevant);
      var keys := Attempts(relevant);
      NoPart(lost, keys);
      NoPart(LossRuns(lost), keys);
      for k := 0 to |keys|
        invariant missingRecords == old(missingRecords) + |PartOf(lost, keys[..k])|
        invariant missingRawBytes == old(missingRawBytes) + |PartOf(lost, keys[..k])| * RECORD_SIZE
        invariant lossEvents == old(lossEvents) + |PartOf(LossRuns(lost), keys[..k])|
      {
        LossesNonempty(relevant, keys[k]);
        assert keys[..k + 1] == keys[..k] + [keys[k]];
        PartGrows(relevant, keys[..k], keys[k]);
        var eventCount, unionSize := UnionIntervalStats(LossesOf(relevant, keys[k]));
        lossEvents := lossEvents + eventCount;
        missingRecords := missingRecords + unionSize;
        missingRawBytes := missingRawBytes + unionSize * RECORD_SIZE;
      }
      assert keys[..|keys|] == keys;
      AllParts(relevant);
    }
  }
}
