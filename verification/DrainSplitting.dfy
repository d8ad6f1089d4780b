/** One drain, or the same bytes in two drains one after the other. */
module DrainSplitting {
  import opened Bytes
  import opened CaptureDrain
  import opened CaptureRecords
  import opened DrainLaws
  import opened DrainMerge
  import opened DrainTheorems

  lemma AdvancedTwice(hash: bytes -> Sha256, d: Durable, middle: Durable, last: Durable, s: bytes, n: nat, t: bytes, m: nat)
    requires Sound(hash, d)
    requires Advanced(hash, d, middle, s, n) && Advanced(hash, middle, last, t, m)
    requires Stream(d) <= s <= t && d.source.count <= n <= m
    ensures Advanced(hash, d, last, t, m)
  {
    if t == Stream(d) && m == d.source.count {
      assert s == t;
    }
  }

  function Plain(e: int, records: seq<bytes>, generation: int, tail: Option<Tail>): Request {
    Request(e, records, generation, tail, None)
  }

  lemma SplitForms(hash: bytes -> Sha256, d: Durable, middle: Durable, e: int, a: seq<bytes>, b: seq<bytes>, g: int,
                   tail: Option<Tail>)
    requires Sound(hash, d) && a != [] && b != []
    requires Placed(middle) && middle.source.count == Max(d.source.count, e + |a|)
    requires middle.source == d.source.(count := middle.source.count, digest := middle.source.digest)
    ensures var whole, rest := Plain(e, a + b, g, tail), Plain(e + |a|, b, g, tail);
      && (Admissible(|a + b|, d, whole) <==>
            Admissible(|a|, d, Plain(e, a, g, None)) && Admissible(|b|, middle, rest))
      && Frontier(d, whole) == Frontier(middle, rest)
      && (TailFits(d, whole) <==> TailFits(middle, rest))
  {
    hide Raws, Join, AudioMachine.Transition;
    var both := a + b;
    assert both[..|a|] == a && both[|a|..] == b;
    assert Bounded(both, |both|) <==> Bounded(a, |a|) && Bounded(b, |b|) by {
      BoundedSplits(a, b);
    }
    hide Bounded;
  }

  lemma BoundedSplits(a: seq<bytes>, b: seq<bytes>)
    requires a != [] && b != []
    ensures Bounded(a + b, |a + b|) <==> Bounded(a, |a|) && Bounded(b, |b|)
  {
    if Bounded(a + b, |a + b|) {
      assert forall i :: 0 <= i < |a| ==> a[i] == (a + b)[i];
      assert forall i :: 0 <= i < |b| ==> b[i] == (a + b)[|a| + i];
    }
  }

  lemma SplitBytes(d: Durable, middle: Durable, e: nat, a: seq<RawRecord>, b: seq<RawRecord>, g: int, tail: Option<Tail>)
    requires Placed(d) && Placed(middle) && e <= d.source.count && e + |a| <= middle.source.count
    requires Agrees(Stream(d), AUDIO_RECORD_SIZE * e, Join(a))
    requires Stream(middle) == Merge(Stream(d), AUDIO_RECORD_SIZE * e, Join(a))
    ensures var whole, rest := Plain(e, a + b, g, tail), Plain(e + |a|, b, g, tail);
      && (RecordsAgree(Stream(d), whole) <==> RecordsAgree(Stream(middle), rest))
      && (RecordsAgree(Stream(d), whole) ==> WithRecords(d, whole) == WithRecords(middle, rest))
  {
    hide Raws, Join, Agrees, Merge, Stream;
    JoinAppend(a, b);
    RawsParsed(a);
    StreamReaches(d);
    MergeTwice(Stream(d), AUDIO_RECORD_SIZE * e, Join(a), Join(b));
  }

  /** A drain without a digest is accepted exactly if both its parts are, one after the other, to the same effect. */
  lemma SplitDrain(hash: bytes -> Sha256, d: Durable, e: int, a: seq<bytes>, b: seq<bytes>, g: int, tail: Option<Tail>)
    requires Sound(hash, d) && a != [] && b != []
    ensures var first := DecideDrain(hash, |a|, d, Plain(e, a, g, None));
      var whole := DecideDrain(hash, |a + b|, d, Plain(e, a + b, g, tail));
      && (first.Accepted? ==> Sound(hash, first.next))
      && (whole.Accepted? ==> first.Accepted?)
      && (first.Accepted? ==>
            var rest := DecideDrain(hash, |b|, first.next, Plain(e + |a|, b, g, tail));
            && (whole.Accepted? <==> rest.Accepted?)
            && (whole.Accepted? ==> whole.next == rest.next))
  {
    var first := DecideDrain(hash, |a|, d, Plain(e, a, g, None));
    var whole := DecideDrain(hash, |a + b|, d, Plain(e, a + b, g, tail));
    hide Raws, Join, Agrees, Merge, DecideDrain, Advanced, Admissible, TailFits;
    if whole.Accepted? {
      WholeNeedsFirst(hash, d, e, a, b, g, tail);
    }
    if first.Accepted? {
      DrainGrows(hash, |a|, d, Plain(e, a, g, None));
      RestIsWhole(hash, d, e, a, b, g, tail);
    }
  }

  lemma WholeNeedsFirst(hash: bytes -> Sha256, d: Durable, e: int, a: seq<bytes>, b: seq<bytes>, g: int, tail: Option<Tail>)
    requires Sound(hash, d) && a != [] && b != []
    requires DecideDrain(hash, |a + b|, d, Plain(e, a + b, g, tail)).Accepted?
    ensures DecideDrain(hash, |a|, d, Plain(e, a, g, None)).Accepted?
  {
    var whole, first := Plain(e, a + b, g, tail), Plain(e, a, g, None);
    hide Raws, Join, Agrees, Merge, DecideDrain, Advanced;
    AcceptedFits(hash, |a + b|, d, whole);
    BoundedSplits(a, b);
    JoinAppend(a, b);
    MergeTwice(Stream(d), AUDIO_RECORD_SIZE * e, Join(a), Join(b));
    PlainDrain(hash, |a|, d, first);
  }

  /** What the first part leaves behind for the second. */
  predicate Midway(hash: bytes -> Sha256, d: Durable, middle: Durable, first: Request) {
    && Sound(hash, d)
    && Admissible(|first.records|, d, first)
    && RecordsAgree(Stream(d), first)
    && Advanced(hash, d, middle, WithRecords(d, first), Frontier(d, first))
  }

  lemma FirstIsMidway(hash: bytes -> Sha256, d: Durable, first: Request)
    requires Sound(hash, d) && first.digest.None? && first.tail.None?
    requires DecideDrain(hash, |first.records|, d, first).Accepted?
    ensures Midway(hash, d, DecideDrain(hash, |first.records|, d, first).next, first)
  {
    hide Raws, Join, Agrees, Merge, DecideDrain, Advanced;
    PlainDrain(hash, |first.records|, d, first);
  }

  lemma RestAgreeable(hash: bytes -> Sha256, d: Durable, middle: Durable, e: int, a: seq<bytes>, b: seq<bytes>, g: int,
                      tail: Option<Tail>)
    requires a != [] && b != [] && Midway(hash, d, middle, Plain(e, a, g, None))
    ensures var whole, rest := Plain(e, a + b, g, tail), Plain(e + |a|, b, g, tail);
      && Frontier(d, whole) == Frontier(middle, rest)
      && (Agreeable(|a + b|, d, whole) <==> Agreeable(|b|, middle, rest))
      && (Agreeable(|a + b|, d, whole) ==> WithRecords(d, whole) == WithRecords(middle, rest))
  {
    hide Raws, Join, Agrees, Merge, Stream, TailFits;
    SplitForms(hash, d, middle, e, a, b, g, tail);
    hide ReceivesLeg;
    if Bounded(b, |b|) {
      SplitBytes(d, middle, e, a, b, g, tail);
    }
  }

  lemma RestIsWhole(hash: bytes -> Sha256, d: Durable, e: int, a: seq<bytes>, b: seq<bytes>, g: int, tail: Option<Tail>)
    requires Sound(hash, d) && a != [] && b != []
    requires DecideDrain(hash, |a|, d, Plain(e, a, g, None)).Accepted?
    ensures var middle := DecideDrain(hash, |a|, d, Plain(e, a, g, None)).next;
      var whole := DecideDrain(hash, |a + b|, d, Plain(e, a + b, g, tail));
      && Sound(hash, middle)
      && var rest := DecideDrain(hash, |b|, middle, Plain(e + |a|, b, g, tail));
      && (whole.Accepted? <==> rest.Accepted?)
      && (whole.Accepted? ==> whole.next == rest.next)
  {
    var whole, rest := Plain(e, a + b, g, tail), Plain(e + |a|, b, g, tail);
    var middle := DecideDrain(hash, |a|, d, Plain(e, a, g, None)).next;
    hide Raws, Join, Agrees, Merge, DecideDrain, Agreeable, Frontier, WithRecords, Advanced;
    FirstIsMidway(hash, d, Plain(e, a, g, None));
    assert Sound(hash, middle) by { MidwaySound(hash, d, middle, Plain(e, a, g, None)); }
    hide Midway, Sound;
    RestAgreeable(hash, d, middle, e, a, b, g, tail);
    PlainDrain(hash, |a + b|, d, whole);
    PlainDrain(hash, |b|, middle, rest);
    if Agreeable(|a + b|, d, whole) {
      SameEnd(hash, d, middle, Plain(e, a, g, None), DecideDrain(hash, |a + b|, d, whole).next, rest,
              DecideDrain(hash, |b|, middle, rest).next, Laid(d, whole));
    }
  }

  lemma MidwaySound(hash: bytes -> Sha256, d: Durable, middle: Durable, first: Request)
    requires Midway(hash, d, middle, first)
    ensures Sound(hash, middle)
  {}

  lemma SameEnd(hash: bytes -> Sha256, d: Durable, middle: Durable, first: Request, whole: Durable, rest: Request,
                last: Durable, stream: bytes)
    requires Midway(hash, d, middle, first) && Sound(hash, middle) && Agreeable(|rest.records|, middle, rest)
    requires rest.tail.Some? ==> 0 <= rest.tail.value.offset <= |WithRecords(middle, rest)|
    requires stream == Laid(middle, rest)
    requires Advanced(hash, d, whole, stream, Frontier(middle, rest))
    requires Advanced(hash, middle, last, stream, Frontier(middle, rest))
    ensures whole == last
  {
    hide Raws, Join, Agrees;
    MergeExtends(Stream(d), AUDIO_RECORD_SIZE * first.expected, Join(first.records));
    LaidExtends(middle, rest);
    hide Merge, SaysTheSame, WithRecords, Laid;
    AdvancedTwice(hash, d, middle, last, Stream(middle), middle.source.count, stream, Frontier(middle, rest));
    AdvancedUnique(hash, d, whole, last, stream, Frontier(middle, rest));
  }
}
