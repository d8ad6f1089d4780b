/** The target of the writer, as far as it says where in the source an append goes: the adapter that takes arena offsets
  * to offsets in a leg, and the staging writer that takes those to sequence numbers. */
module StagingTarget {
  import opened WriterHistory

  /** The fields of both: the source begins at `first`, the arena at `arenaStart`. */
  datatype Target = Target(first: nat, arenaStart: nat, activeStart: nat, activeCount: nat, legBase: int)

  /** As `prepare` leaves it: the leg is the whole attempt. */
  function PreparedTarget(first: nat, packets: nat, arenaStart: nat): Target {
    Target(first, arenaStart, first, packets, 0)
  }

  predicate IsLeg(call: Call) {
    call.Operation? && call.command.PrepareLegCommand?
  }

  /** One call. Preparing a leg moves the base of the adapter even if the staging writer then raises. */
  function After(target: Target, call: Call): Target {
    if !IsLeg(call) then target
    else
      var moved := target.(legBase := (call.command.start - target.arenaStart) * RECORD_SIZE);
      if call.ok then moved.(activeStart := call.command.start, activeCount := call.command.count) else moved
  }

  function AfterAll(target: Target, calls: seq<Call>): Target
    decreases |calls|
  {
    if calls == [] then target else After(AfterAll(target, calls[..|calls| - 1]), calls[|calls| - 1])
  }

  /** What `append_chunk` checks of the call itself. */
  predicate Takes(target: Target, call: Call)
    requires call.Append?
  {
    && target.legBase <= call.offset
    && (call.offset - target.legBase) % RECORD_SIZE == 0
    && !(call.chunk == [] && call.tail == [])
    && call.offset - target.legBase + |call.chunk| + |call.tail| <= target.activeCount * RECORD_SIZE
  }

  /** The sequence number of the first record it brings. */
  function Sequence(target: Target, call: Call): int
    requires call.Append?
  {
    target.activeStart + (call.offset - target.legBase) / RECORD_SIZE
  }

  ghost predicate LegPrepared(calls: seq<Call>) {
    exists i :: 0 <= i < |calls| && IsLeg(calls[i])
  }

  lemma {:induction false} StartsStay(target: Target, calls: seq<Call>)
    ensures AfterAll(target, calls).first == target.first && AfterAll(target, calls).arenaStart == target.arenaStart
    decreases |calls|
  {
    if calls != [] {
      StartsStay(target, calls[..|calls| - 1]);
    }
  }

  /** However many legs are prepared, the base of the adapter and the start of the staging writer move together. */
  lemma {:induction false} LegsMoveTogether(target: Target, calls: seq<Call>)
    requires forall i :: 0 <= i < |calls| ==> calls[i].ok
    ensures var now := AfterAll(target, calls);
      if LegPrepared(calls) then now.legBase == (now.activeStart - target.arenaStart) * RECORD_SIZE else now == target
    decreases |calls|
  {
    if calls != [] {
      var front, last := calls[..|calls| - 1], calls[|calls| - 1];
      LegsMoveTogether(target, front);
      StartsStay(target, front);
      if LegPrepared(front) {
        var i :| 0 <= i < |front| && IsLeg(front[i]);
        assert IsLeg(calls[i]);
      }
      if LegPrepared(calls) && !IsLeg(last) {
        var i :| 0 <= i < |calls| && IsLeg(calls[i]);
        assert IsLeg(front[i]);
      }
      if IsLeg(last) {
        assert IsLeg(calls[|calls| - 1]);
      }
    }
  }

  /** The base is that of the last leg asked for. */
  lemma {:induction false} BaseOfLastAsked(target: Target, calls: seq<Call>, i: nat)
    requires i < |calls| && IsLeg(calls[i]) && forall j :: i < j < |calls| ==> !IsLeg(calls[j])
    ensures AfterAll(target, calls).legBase == 444 * (calls[i].command.start - target.arenaStart)
    decreases |calls|
  {
    var front := calls[..|calls| - 1];
    StartsStay(target, front);
    if i < |calls| - 1 {
      assert forall j :: 0 <= j < |front| ==> front[j] == calls[j];
      BaseOfLastAsked(target, front, i);
    }
  }

  /** The active leg is the last one that came back, or the whole attempt. */
  lemma {:induction false} ActiveOfLastReturned(target: Target, calls: seq<Call>, i: int)
    requires -1 <= i < |calls| && (i >= 0 ==> IsLeg(calls[i]) && calls[i].ok)
    requires forall j :: i < j < |calls| && IsLeg(calls[j]) ==> !calls[j].ok
    ensures var now := AfterAll(target, calls);
      if i < 0 then now.activeStart == target.activeStart && now.activeCount == target.activeCount
      else now.activeStart == calls[i].command.start && now.activeCount == calls[i].command.count
    decreases |calls|
  {
    if i < |calls| - 1 {
      var front := calls[..|calls| - 1];
      assert forall j :: 0 <= j < |front| ==> front[j] == calls[j];
      ActiveOfLastReturned(target, front, i);
    }
  }

  /** With every call returned, an append is taken exactly if its bytes lie inside the last leg, at a record of it. */
  lemma TakesInLastLeg(target: Target, before: seq<Call>, i: nat, call: Call)
    requires forall j :: 0 <= j < |before| ==> before[j].ok
    requires i < |before| && IsLeg(before[i]) && forall j :: i < j < |before| ==> !IsLeg(before[j])
    requires call.Append?
    ensures Takes(AfterAll(target, before), call) <==>
      var leg, place := before[i].command, 444 * target.arenaStart + call.offset;
      && call.offset % 444 == 0
      && (call.chunk != [] || call.tail != [])
      && 444 * leg.start <= place
      && place + |call.chunk| + |call.tail| <= 444 * (leg.start + leg.count)
  {
    BaseOfLastAsked(target, before, i);
    ActiveOfLastReturned(target, before, i);
    OffsetInLeg(call.offset, before[i].command.start - target.arenaStart);
  }

  lemma OffsetInLeg(offset: int, records: int)
    ensures (offset - 444 * records) % 444 == 0 <==> offset % 444 == 0
  {
    var k, r := offset / 444, offset % 444;
    assert offset - 444 * records == 444 * (k - records) + r;
  }

  lemma LegPlace(arenaStart: nat, start: int, offset: nat)
    requires offset % RECORD_SIZE == 0
    ensures start + (offset - (start - arenaStart) * RECORD_SIZE) / RECORD_SIZE == arenaStart + offset / RECORD_SIZE
  {
    var k := offset / RECORD_SIZE;
    assert offset == k * RECORD_SIZE;
    assert offset - (start - arenaStart) * RECORD_SIZE == (k - (start - arenaStart)) * RECORD_SIZE;
  }

  /** So each append goes where its offset in the arena says, counted from the arena's own start, in whatever leg it
    * comes; and from the start of the source if no leg was prepared. */
  lemma AppendsKeepPlace(target: Target, before: seq<Call>, call: Call)
    requires target == PreparedTarget(target.first, target.activeCount, target.arenaStart)
    requires forall i :: 0 <= i < |before| ==> before[i].ok
    requires call.Append? && call.offset % RECORD_SIZE == 0
    ensures Sequence(AfterAll(target, before), call)
         == (if LegPrepared(before) then target.arenaStart else target.first) + call.offset / RECORD_SIZE
  {
    LegsMoveTogether(target, before);
    LegPlace(target.arenaStart, AfterAll(target, before).activeStart, call.offset);
  }
}
