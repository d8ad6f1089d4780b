/** Clock segments out of observations and out of the durable clock state. */
module ClockEstimates {
  import opened Bytes
  import opened Sorting
  import opened ClockSegments

  datatype Role = Standalone | Initial | Later

  datatype ClockObservation = ClockObservation(
    observationId: string,
    causalOrder: nat,
    nativeTrusted: bool,
    realtimeStart: real,
    realtimeEnd: real,
    deviceEpoch: nat,
    infoMin: nat,
    infoMax: nat,
    operationId: Option<string>,
    effectiveBoundary: Option<nat>,
    role: Role,
    parentId: Option<string>)
  {
    /** What `ClockObservation.__post_init__` guarantees. */
    predicate Valid() {
      && observationId != ""
      && realtimeStart <= realtimeEnd
      && infoMin <= infoMax
      && (effectiveBoundary.Some? ==> effectiveBoundary.value <= infoMax)
      && (parentId.Some? ==> parentId.value != "")
    }

    /** `from_approximate_observation`: the host-time midpoint against the device clock. */
    function EstimatedAnchor(): Anchor {
      Anchor(observationId,
             (realtimeStart + realtimeEnd) / 2.0 - deviceEpoch as real,
             (realtimeEnd - realtimeStart) / 2.0 + 1.0,
             Approximate)
    }
  }

  type Observation = o: ClockObservation | o.Valid()
    witness ClockObservation("a", 0, false, 0.0, 0.0, 0, 0, 0, None, None, Standalone, None)

  type Boundary = (nat, nat)

  /** `{item.observation_id: item for item in observations}`: the last of equal ids stays. */
  function ById(observations: seq<Observation>): map<string, Observation> {
    if observations == [] then map[]
    else
      var n := |observations| - 1;
      ById(observations[..n])[observations[n].observationId := observations[n]]
  }

  predicate IsVerifiedBoundary(item: Observation, byId: map<string, Observation>, verified: set<string>) {
    && item.operationId.Some? && item.operationId.value in verified
    && item.role == Later
    && item.parentId.Some? && item.parentId.value in byId && byId[item.parentId.value].role == Initial
    && item.effectiveBoundary.Some?
  }

  /** `_verified_boundaries`. */
  function VerifiedBoundaries(
    observations: seq<Observation>, byId: map<string, Observation>, verified: set<string>): seq<Boundary>
  {
    if observations == [] then []
    else
      var item := observations[0];
      (if IsVerifiedBoundary(item, byId, verified) then [(item.causalOrder, item.effectiveBoundary.value)] else [])
      + VerifiedBoundaries(observations[1..], byId, verified)
  }

  predicate Corrects(item: Observation, observation: Observation) {
    && item.operationId == observation.operationId
    && item.role == Later
    && item.parentId == Some(observation.observationId)
    && item.effectiveBoundary.Some?
  }

  function FirstCorrection(observations: seq<Observation>, observation: Observation): (later: Option<Observation>)
    ensures later.Some? ==> Corrects(later.value, observation)
  {
    if observations == [] then None
    else if Corrects(observations[0], observation) then Some(observations[0])
    else FirstCorrection(observations[1..], observation)
  }

  function Max(a: int, b: int): int {
    if a < b then b else a
  }

  function Min(a: int, b: int): int {
    if a < b then a else b
  }

  /** The range an observation speaks for before earlier verified clock writes limit it. */
  function OwnRange(observation: Observation, observations: seq<Observation>, byId: map<string, Observation>): (int, int) {
    var start, end := observation.infoMin, observation.infoMax;
    match observation.role
    case Initial =>
      (match FirstCorrection(observations, observation)
       case None => (start, end)
       case Some(later) => (start, Min(end, later.effectiveBoundary.value)))
    case Later =>
      if observation.parentId.None? || observation.parentId.value !in byId then (start, end)
      else if observation.effectiveBoundary.Some? then (observation.effectiveBoundary.value, end)
      else (Max(start, byId[observation.parentId.value].infoMax), end)
    case Standalone => (start, end)
  }

  /** Which sequences an observation may estimate: its own range, past every verified write that came before it. */
  ghost predicate Applicable(observation: Observation, range: (int, int), boundaries: seq<Boundary>, sequence: int) {
    && range.0 <= sequence < range.1
    && forall k :: 0 <= k < |boundaries| && boundaries[k].0 < observation.causalOrder ==> boundaries[k].1 <= sequence
  }

  predicate InRange(start: int, end: int, sequence: int) {
    start <= sequence < end
  }

  predicate Within(bounds: Option<(int, int)>, sequence: int) {
    bounds.Some? && InRange(bounds.value.0, bounds.value.1, sequence)
  }

  lemma ApplicableNext(observation: Observation, range: (int, int), boundaries: seq<Boundary>, k: nat)
    requires k < |boundaries|
    ensures forall s :: Applicable(observation, range, boundaries[..k + 1], s) <==>
      && Applicable(observation, range, boundaries[..k], s)
      && (boundaries[k].0 < observation.causalOrder ==> boundaries[k].1 <= s)
  {
    forall s
      ensures Applicable(observation, range, boundaries[..k + 1], s) <==>
        && Applicable(observation, range, boundaries[..k], s)
        && (boundaries[k].0 < observation.causalOrder ==> boundaries[k].1 <= s)
    {
      if Applicable(observation, range, boundaries[..k + 1], s) {
        assert boundaries[..k + 1][k] == boundaries[k];
        assert forall j :: 0 <= j < k ==> boundaries[..k + 1][j] == boundaries[..k][j];
      }
    }
  }

  lemma NothingApplies(observation: Observation, range: (int, int), boundaries: seq<Boundary>, k: nat)
    requires k < |boundaries| && boundaries[k].0 < observation.causalOrder
    requires forall s :: Applicable(observation, range, boundaries[..k], s) ==> s < boundaries[k].1
    ensures forall s :: !Applicable(observation, range, boundaries, s)
  {
    forall s
      ensures Applicable(observation, range, boundaries, s) ==> Applicable(observation, range, boundaries[..k], s)
    {
      assert forall j :: 0 <= j < k ==> boundaries[..k][j] == boundaries[j];
    }
  }

  // ----- the same, read off the observations

  /** Observation `p` is the last with this id. */
  ghost predicate Known(observations: seq<Observation>, id: string, p: nat) {
    && p < |observations| && observations[p].observationId == id
    && forall q :: p < q < |observations| ==> observations[q].observationId != id
  }

  /** Observation `k` is a later read of the same operation that corrects observation `i` from some sequence on. */
  ghost predicate CorrectsFrom(observations: seq<Observation>, i: nat, k: nat)
    requires i < |observations| && k < |observations|
  {
    && observations[k].role == Later
    && observations[k].operationId == observations[i].operationId
    && observations[k].parentId == Some(observations[i].observationId)
    && observations[k].effectiveBoundary.Some?
  }

  ghost predicate FirstCorrects(observations: seq<Observation>, i: nat, k: nat)
    requires i < |observations| && k < |observations|
  {
    CorrectsFrom(observations, i, k) && forall j :: 0 <= j < k ==> !CorrectsFrom(observations, i, j)
  }

  /** Observation `k` tells of a clock write that is verified to have happened: a later read of a verified operation,
    * after a known initial one, that says from where the clock applies. */
  ghost predicate WriteVerified(observations: seq<Observation>, verified: set<string>, k: nat)
    requires k < |observations|
  {
    && observations[k].role == Later
    && observations[k].operationId.Some? && observations[k].operationId.value in verified
    && observations[k].effectiveBoundary.Some?
    && observations[k].parentId.Some?
    && exists p: nat :: Known(observations, observations[k].parentId.value, p) && observations[p].role == Initial
  }

  ghost predicate WrittenBefore(observations: seq<Observation>, verified: set<string>, k: nat, order: nat)
    requires k < |observations|
  {
    WriteVerified(observations, verified, k) && observations[k].causalOrder < order
  }

  /** What an observation says of itself: it knows the INFO range. An initial read stops where its first correction
    * takes over. A later read of a known parent starts at its own boundary, or else past what the parent knew. */
  ghost predicate SaysOfItself(observations: seq<Observation>, i: nat, sequence: int)
    requires i < |observations|
  {
    var o := observations[i];
    && sequence < o.infoMax
    && (o.role == Initial ==>
          forall k :: 0 <= k < |observations| && FirstCorrects(observations, i, k) ==>
            sequence < observations[k].effectiveBoundary.value)
    && (if o.role == Later && o.parentId.Some? && exists p: nat :: Known(observations, o.parentId.value, p) then
          if o.effectiveBoundary.Some? then o.effectiveBoundary.value <= sequence
          else
            && o.infoMin <= sequence
            && forall p: nat :: Known(observations, o.parentId.value, p) ==> observations[p].infoMax <= sequence
        else o.infoMin <= sequence)
  }

  /** Observation `i` may estimate `sequence`: it is trusted, says so of itself, and no verified clock write that came
    * before it lies ahead. */
  ghost predicate Speaks(observations: seq<Observation>, verified: set<string>, i: nat, sequence: int)
    requires i < |observations|
  {
    observations[i].nativeTrusted && MaySpeak(observations, verified, i, sequence)
  }

  ghost predicate MaySpeak(observations: seq<Observation>, verified: set<string>, i: nat, sequence: int)
    requires i < |observations|
  {
    && SaysOfItself(observations, i, sequence)
    && forall k :: 0 <= k < |observations| && WrittenBefore(observations, verified, k, observations[i].causalOrder) ==>
         observations[k].effectiveBoundary.value <= sequence
  }

  lemma {:induction false} ByIdKnows(observations: seq<Observation>, id: string)
    ensures id in ById(observations) <==> exists p: nat :: Known(observations, id, p)
    ensures forall p: nat :: Known(observations, id, p) ==> ById(observations)[id] == observations[p]
    decreases |observations|
  {
    if observations != [] {
      var n := |observations| - 1;
      var front := observations[..n];
      ByIdKnows(front, id);
      if observations[n].observationId == id {
        assert Known(observations, id, n);
      } else {
        assert forall p: nat :: Known(observations, id, p) ==> Known(front, id, p);
        assert forall p: nat :: Known(front, id, p) ==> Known(observations, id, p);
      }
    }
  }

  /** The first correction found is the first there is. */
  ghost predicate FoundFirst(observations: seq<Observation>, observation: Observation, k: nat) {
    && k < |observations| && Corrects(observations[k], observation)
    && forall j :: 0 <= j < k ==> !Corrects(observations[j], observation)
  }

  lemma {:induction false} FirstCorrectionAt(observations: seq<Observation>, observation: Observation)
    ensures match FirstCorrection(observations, observation)
      case None => forall k :: 0 <= k < |observations| ==> !Corrects(observations[k], observation)
      case Some(later) => exists k: nat :: FoundFirst(observations, observation, k) && observations[k] == later
  {
    hide Corrects;
    if observations != [] {
      if Corrects(observations[0], observation) {
        assert FoundFirst(observations, observation, 0);
      } else {
        var rest := observations[1..];
        FirstCorrectionAt(rest, observation);
        assert forall k :: 1 <= k < |observations| ==> observations[k] == rest[k - 1];
        match FirstCorrection(rest, observation)
        case None =>
        case Some(later) =>
          var k: nat :| FoundFirst(rest, observation, k) && rest[k] == later;
          assert forall j :: 1 <= j < k + 1 ==> observations[j] == rest[j - 1];
          assert FoundFirst(observations, observation, k + 1);
      }
    }
  }

  lemma InitialOwn(observations: seq<Observation>, i: nat, sequence: int)
    requires i < |observations| && observations[i].role == Initial
    ensures var own := OwnRange(observations[i], observations, ById(observations));
      InRange(own.0, own.1, sequence) <==> SaysOfItself(observations, i, sequence)
  {
    var o := observations[i];
    FirstCorrectionAt(observations, o);
    assert forall k :: 0 <= k < |observations| ==> (Corrects(observations[k], o) <==> CorrectsFrom(observations, i, k));
    match FirstCorrection(observations, o)
    case None =>
    case Some(later) =>
      var k: nat :| FoundFirst(observations, o, k) && observations[k] == later;
      assert FirstCorrects(observations, i, k);
      assert forall m :: 0 <= m < |observations| && FirstCorrects(observations, i, m) ==> m == k;
  }

  lemma LaterOwn(observations: seq<Observation>, i: nat, sequence: int)
    requires i < |observations| && observations[i].role != Initial
    ensures var own := OwnRange(observations[i], observations, ById(observations));
      InRange(own.0, own.1, sequence) <==> SaysOfItself(observations, i, sequence)
  {
    var o := observations[i];
    if o.parentId.Some? {
      ByIdKnows(observations, o.parentId.value);
    }
  }

  /** A boundary gathered is that of an observation. */
  ghost predicate GatheredFrom(observations: seq<Observation>, byId: map<string, Observation>, verified: set<string>,
                               boundary: Boundary, k: nat)
  {
    && k < |observations| && IsVerifiedBoundary(observations[k], byId, verified)
    && boundary == (observations[k].causalOrder, observations[k].effectiveBoundary.value)
  }

  lemma {:induction false} BoundariesAre(
    observations: seq<Observation>, byId: map<string, Observation>, verified: set<string>, boundary: Boundary)
    ensures boundary in VerifiedBoundaries(observations, byId, verified)
       <==> exists k: nat :: GatheredFrom(observations, byId, verified, boundary, k)
  {
    if observations != [] {
      var rest := observations[1..];
      BoundariesAre(rest, byId, verified, boundary);
      if k: nat :| GatheredFrom(rest, byId, verified, boundary, k) {
        assert observations[k + 1] == rest[k];
        assert GatheredFrom(observations, byId, verified, boundary, k + 1);
      }
      if k: nat :| GatheredFrom(observations, byId, verified, boundary, k) {
        assert k > 0 ==> observations[k] == rest[k - 1] && GatheredFrom(rest, byId, verified, boundary, k - 1);
      }
      if IsVerifiedBoundary(observations[0], byId, verified)
        && boundary == (observations[0].causalOrder, observations[0].effectiveBoundary.value) {
        assert GatheredFrom(observations, byId, verified, boundary, 0);
      }
    }
  }

  lemma WritesVerified(observations: seq<Observation>, verified: set<string>, k: nat)
    requires k < |observations|
    ensures IsVerifiedBoundary(observations[k], ById(observations), verified) <==> WriteVerified(observations, verified, k)
  {
    if observations[k].parentId.Some? {
      ByIdKnows(observations, observations[k].parentId.value);
    }
  }

  /** Past every boundary gathered means past every verified write. */
  lemma PastWrites(observations: seq<Observation>, verified: set<string>, order: nat, sequence: int)
    ensures var boundaries := VerifiedBoundaries(observations, ById(observations), verified);
      (forall k :: 0 <= k < |boundaries| && boundaries[k].0 < order ==> boundaries[k].1 <= sequence)
      <==> forall k :: 0 <= k < |observations| && WrittenBefore(observations, verified, k, order) ==>
             observations[k].effectiveBoundary.value <= sequence
  {
    hide VerifiedBoundaries, IsVerifiedBoundary, ById;
    var byId := ById(observations);
    var boundaries := VerifiedBoundaries(observations, byId, verified);
    if forall k :: 0 <= k < |boundaries| && boundaries[k].0 < order ==> boundaries[k].1 <= sequence {
      forall k | 0 <= k < |observations| && WrittenBefore(observations, verified, k, order)
        ensures observations[k].effectiveBoundary.value <= sequence
      {
        var boundary := (observations[k].causalOrder, observations[k].effectiveBoundary.value);
        WritesVerified(observations, verified, k);
        BoundariesAre(observations, byId, verified, boundary);
        assert GatheredFrom(observations, byId, verified, boundary, k);
        assert boundary in boundaries;
      }
    } else {
      var k :| 0 <= k < |boundaries| && boundaries[k].0 < order && boundaries[k].1 > sequence;
      BoundariesAre(observations, byId, verified, boundaries[k]);
      var j: nat :| GatheredFrom(observations, byId, verified, boundaries[k], j);
      WritesVerified(observations, verified, j);
    }
  }

  /** The range computed and the boundaries gathered come to what the observations say. */
  lemma AppliesIsMaySpeak(observations: seq<Observation>, verified: set<string>, i: nat, sequence: int)
    requires i < |observations|
    ensures var byId := ById(observations);
      Applicable(observations[i], OwnRange(observations[i], observations, byId),
                 VerifiedBoundaries(observations, byId, verified), sequence)
      <==> MaySpeak(observations, verified, i, sequence)
  {
    hide OwnRange, SaysOfItself, VerifiedBoundaries, WriteVerified, ById;
    if observations[i].role == Initial {
      InitialOwn(observations, i, sequence);
    } else {
      LaterOwn(observations, i, sequence);
    }
    PastWrites(observations, verified, observations[i].causalOrder, sequence);
  }

  /** `_approximate_bounds`. */
  method ApproximateBounds(
    observation: Observation, observations: seq<Observation>, byId: map<string, Observation>, boundaries: seq<Boundary>,
    ghost verified: set<string>, ghost i: nat)
    returns (bounds: Option<(int, int)>)
    requires i < |observations| && observation == observations[i]
    requires byId == ById(observations) && boundaries == VerifiedBoundaries(observations, byId, verified)
    ensures bounds.Some? ==> 0 <= bounds.value.0 < bounds.value.1
    ensures forall s :: Within(bounds, s) <==> MaySpeak(observations, verified, i, s)
  {
    var (start, end) := OwnRange(observation, observations, byId);
    ghost var own := (start, end);
    forall s
      ensures Applicable(observation, own, boundaries, s) <==> MaySpeak(observations, verified, i, s)
    {
      AppliesIsMaySpeak(observations, verified, i, s);
    }
    hide OwnRange, MaySpeak, VerifiedBoundaries, ById;
    for k := 0 to |boundaries|
      invariant start >= 0
      invariant forall s :: InRange(start, end, s) <==> Applicable(observation, own, boundaries[..k], s)
    {
      var (boundaryOrder, boundary) := boundaries[k];
      ghost var before := start;
      if boundaryOrder < observation.causalOrder && start < boundary {
        if end <= boundary {
          NothingApplies(observation, own, boundaries, k);
          return None;
        }
        start := Max(start, boundary);
      }
      ApplicableNext(observation, own, boundaries, k);
      forall s
        ensures InRange(start, end, s) <==> Applicable(observation, own, boundaries[..k + 1], s)
      {
        assert InRange(before, end, s) <==> Applicable(observation, own, boundaries[..k], s);
      }
    }
    assert boundaries[..|boundaries|] == boundaries;
    return if end > start then Some((start, end)) else None;
  }

  // ----- laying estimates and confirmed segments over each other

  datatype Estimate = Estimate(order: int, segment: ClockSegment)

  predicate OrderedBefore(a: Estimate, b: Estimate) {
    a.order <= b.order
  }

  function Layered(base: seq<ClockSegment>, layers: seq<ClockSegment>): seq<ClockSegment>
    decreases |layers|
  {
    if layers == [] then base
    else Overlaid(Layered(base, layers[..|layers| - 1]), layers[|layers| - 1])
  }

  function LastAt(layers: seq<ClockSegment>, sequence: int): Option<Anchor>
    decreases |layers|
  {
    if layers == [] then None
    else
      var top := layers[|layers| - 1];
      if top.Covers(sequence) then Some(top.anchor) else LastAt(layers[..|layers| - 1], sequence)
  }

  lemma {:induction false} LayeredAt(base: seq<ClockSegment>, layers: seq<ClockSegment>, sequence: int)
    ensures At(Layered(base, layers), sequence)
         == if LastAt(layers, sequence).Some? then LastAt(layers, sequence) else At(base, sequence)
    decreases |layers|
  {
    if layers != [] {
      var n := |layers| - 1;
      LayeredAt(base, layers[..n], sequence);
      OverlaidAt(Layered(base, layers[..n]), layers[n], sequence);
    }
  }

  lemma {:induction false} LayeredDisjoint(base: seq<ClockSegment>, layers: seq<ClockSegment>)
    requires Disjoint(base)
    ensures Disjoint(Layered(base, layers))
    decreases |layers|
  {
    if layers != [] {
      var n := |layers| - 1;
      LayeredDisjoint(base, layers[..n]);
      OverlaidDisjoint(Layered(base, layers[..n]), layers[n]);
    }
  }

  /** In a disjoint list the last segment covering a sequence is also the first. */
  lemma {:induction false} LastIsFirst(layers: seq<ClockSegment>, sequence: int)
    requires Disjoint(layers)
    ensures LastAt(layers, sequence) == At(layers, sequence)
    decreases |layers|
  {
    if layers != [] {
      var n := |layers| - 1;
      LastIsFirst(layers[..n], sequence);
      assert layers == layers[..n] + [layers[n]];
      AtAppend(layers[..n], [layers[n]], sequence);
      if layers[n].Covers(sequence) {
        OneOwner(layers[..n], layers[n], sequence);
      }
    }
  }

  function SegmentsOf(estimates: seq<Estimate>): (segments: seq<ClockSegment>)
    ensures |segments| == |estimates|
  {
    seq(|estimates|, i requires 0 <= i < |estimates| => estimates[i].segment)
  }

  /** Estimate `i` owns `sequence`: it covers it, and no covering estimate has a greater causal order, nor an equal
    * one further on. */
  ghost predicate Owns(estimates: seq<Estimate>, i: nat, sequence: int)
    requires i < |estimates|
  {
    && estimates[i].segment.Covers(sequence)
    && forall j :: 0 <= j < |estimates| && estimates[j].segment.Covers(sequence) ==>
         estimates[j].order < estimates[i].order || (estimates[j].order == estimates[i].order && j <= i)
  }

  ghost predicate Uncovered(estimates: seq<Estimate>, sequence: int) {
    forall j :: 0 <= j < |estimates| ==> !estimates[j].segment.Covers(sequence)
  }

  /** The covering estimate a later `>=` replaces: the greatest order, the last of equals. */
  function Latest(estimates: seq<Estimate>, sequence: int): (best: Option<Estimate>)
    ensures best.Some? ==> best.value in estimates && best.value.segment.Covers(sequence)
    decreases |estimates|
  {
    if estimates == [] then None
    else
      var n := |estimates| - 1;
      var best := Latest(estimates[..n], sequence);
      if estimates[n].segment.Covers(sequence) && (best.None? || best.value.order <= estimates[n].order)
      then Some(estimates[n]) else best
  }

  lemma {:induction false} LatestOfUncovered(estimates: seq<Estimate>, sequence: int)
    ensures Latest(estimates, sequence).None? <==> Uncovered(estimates, sequence)
    decreases |estimates|
  {
    if estimates != [] {
      var n := |estimates| - 1;
      LatestOfUncovered(estimates[..n], sequence);
      assert Uncovered(estimates, sequence) <==>
        Uncovered(estimates[..n], sequence) && !estimates[n].segment.Covers(sequence);
    }
  }

  lemma {:induction false} LatestIsGreatest(estimates: seq<Estimate>, j: nat, sequence: int)
    requires j < |estimates| && estimates[j].segment.Covers(sequence)
    ensures Latest(estimates, sequence).Some? && estimates[j].order <= Latest(estimates, sequence).value.order
    decreases |estimates|
  {
    var n := |estimates| - 1;
    if j < n {
      LatestIsGreatest(estimates[..n], j, sequence);
    }
  }

  lemma {:induction false} LatestIsOwner(estimates: seq<Estimate>, i: nat, sequence: int)
    requires i < |estimates| && Owns(estimates, i, sequence)
    ensures Latest(estimates, sequence) == Some(estimates[i])
    decreases |estimates|
  {
    var n := |estimates| - 1;
    var front := estimates[..n];
    if i < n {
      assert forall j :: 0 <= j < n ==> front[j] == estimates[j];
      assert Owns(front, i, sequence);
      LatestIsOwner(front, i, sequence);
      assert estimates[n].segment.Covers(sequence) ==> estimates[n].order < estimates[i].order;
    } else if Latest(front, sequence).Some? {
      var k :| 0 <= k < |front| && front[k] == Latest(front, sequence).value;
      assert estimates[k] == front[k];
    }
  }

  lemma {:induction false} InsertLatest(sorted: seq<Estimate>, x: Estimate, sequence: int)
    requires Ordered(sorted, OrderedBefore)
    ensures
      var last := Latest(sorted, sequence);
      Latest(Insert(sorted, x, OrderedBefore), sequence)
      == if x.segment.Covers(sequence) && (last.None? || last.value.order <= x.order) then Some(x) else last
    decreases |sorted|
  {
    var n := |sorted| - 1;
    if sorted != [] && !OrderedBefore(sorted[n], x) {
      InsertBeforeLast(sorted, x);
      InsertLatest(sorted[..n], x, sequence);
      var inserted := Insert(sorted[..n], x, OrderedBefore);
      assert (inserted + [sorted[n]])[..n + 1] == inserted;
      LatestMember(sorted[..n], sequence, sorted[n].order);
    } else {
      forall i | 0 <= i < |sorted|
        ensures OrderedBefore(sorted[i], x)
      {
        assert i == n || OrderedBefore(sorted[i], sorted[n]);
      }
      InsertLast(sorted, x, OrderedBefore);
      assert (sorted + [x])[..|sorted|] == sorted;
      if sorted != [] {
        LatestMember(sorted, sequence, x.order);
      }
    }
  }

  lemma LatestMember(estimates: seq<Estimate>, sequence: int, order: int)
    requires forall i :: 0 <= i < |estimates| ==> estimates[i].order <= order
    ensures Latest(estimates, sequence).Some? ==> Latest(estimates, sequence).value.order <= order
  {}

  lemma {:induction false} InsertBeforeLast(sorted: seq<Estimate>, x: Estimate)
    requires sorted != [] && !OrderedBefore(sorted[|sorted| - 1], x)
    ensures Insert(sorted, x, OrderedBefore)
         == Insert(sorted[..|sorted| - 1], x, OrderedBefore) + [sorted[|sorted| - 1]]
  {
    var n := |sorted| - 1;
    if n > 0 && OrderedBefore(sorted[0], x) {
      InsertBeforeLast(sorted[1..], x);
      assert sorted[..n][1..] == sorted[1..][..n - 1];
    } else if n > 0 {
      assert sorted == sorted[..n] + [sorted[n]];
    }
  }

  lemma OrdersTotal()
    ensures TotalOrder(OrderedBefore)
  {}

  lemma {:induction false} SortLatest(estimates: seq<Estimate>, sequence: int)
    ensures Latest(Sort(estimates, OrderedBefore), sequence) == Latest(estimates, sequence)
    decreases |estimates|
  {
    if estimates != [] {
      var n := |estimates| - 1;
      OrdersTotal();
      SortOrders(estimates[..n], OrderedBefore);
      SortLatest(estimates[..n], sequence);
      InsertLatest(Sort(estimates[..n], OrderedBefore), estimates[n], sequence);
    }
  }

  /** In ascending order the owner is simply the last layer covering the sequence. */
  lemma {:induction false} SortedLatest(estimates: seq<Estimate>, sequence: int)
    requires Ordered(estimates, OrderedBefore)
    ensures LastAt(SegmentsOf(estimates), sequence)
         == match Latest(estimates, sequence) case None => None case Some(best) => Some(best.segment.anchor)
    decreases |estimates|
  {
    if estimates != [] {
      var n := |estimates| - 1;
      SortedLatest(estimates[..n], sequence);
      assert SegmentsOf(estimates)[..n] == SegmentsOf(estimates[..n]);
      forall i | 0 <= i < n
        ensures estimates[..n][i].order <= estimates[n].order
      {
        assert OrderedBefore(estimates[i], estimates[n]);
      }
      LatestMember(estimates[..n], sequence, estimates[n].order);
    }
  }

  /** ... and none that may is causally later. */
  ghost predicate SpeaksLast(observations: seq<Observation>, verified: set<string>, i: nat, sequence: int)
    requires i < |observations|
  {
    && Speaks(observations, verified, i, sequence)
    && forall j :: 0 <= j < |observations| && Speaks(observations, verified, j, sequence) ==>
         || observations[j].causalOrder < observations[i].causalOrder
         || (observations[j].causalOrder == observations[i].causalOrder && j <= i)
  }

  /** The clock was read somewhere between the two host times: the offset is taken from their middle, and is off by at most
    * half the time between them and the second the device clock is quantized to. */
  predicate IsEstimate(anchor: Anchor, o: Observation) {
    && anchor.observationId == o.observationId
    && anchor.confidence == Approximate
    && 2.0 * (anchor.utcOffset + o.deviceEpoch as real) == o.realtimeStart + o.realtimeEnd
    && 2.0 * anchor.uncertainty == o.realtimeEnd - o.realtimeStart + 2.0
  }

  /** Estimate `k` is what observation `origin` has to say, over exactly the sequences it may speak for. */
  ghost predicate Voices(estimate: Estimate, observations: seq<Observation>, verified: set<string>, origin: nat) {
    && origin < |observations|
    && estimate.order == observations[origin].causalOrder
    && IsEstimate(estimate.segment.anchor, observations[origin])
    && forall s :: estimate.segment.Covers(s) <==> Speaks(observations, verified, origin, s)
  }

  ghost predicate Silent(observations: seq<Observation>, verified: set<string>, i: nat)
    requires i < |observations|
  {
    forall s :: !Speaks(observations, verified, i, s)
  }

  /** The estimates voice the observations in their order; those without an estimate have nothing to say. */
  ghost predicate Voiced(
    estimates: seq<Estimate>, origins: seq<nat>, observations: seq<Observation>, verified: set<string>, upTo: nat)
    requires upTo <= |observations|
  {
    && |origins| == |estimates|
    && (forall k :: 0 <= k < |origins| ==> origins[k] < upTo && Voices(estimates[k], observations, verified, origins[k]))
    && (forall j, k :: 0 <= j < k < |origins| ==> origins[j] < origins[k])
    && (forall i :: 0 <= i < upTo ==> i in origins || Silent(observations, verified, i))
  }

  /** `_approximate_segments`. */
  method ApproximateSegments(observations: seq<Observation>, verified: set<string>)
    returns (estimates: seq<Estimate>)
    ensures exists origins: seq<nat> :: Voiced(estimates, origins, observations, verified, |observations|)
  {
    ghost var origins: seq<nat> := [];
    var byId := ById(observations);
    var boundaries := VerifiedBoundaries(observations, byId, verified);
    estimates := [];
    for i := 0 to |observations|
      invariant Voiced(estimates, origins, observations, verified, i)
    {
      var observation := observations[i];
      if !observation.nativeTrusted {
        assert Silent(observations, verified, i);
        continue;
      }
      var bounds := ApproximateBounds(observation, observations, byId, boundaries, verified, i);
      if bounds.Some? {
        var estimate := Estimate(
          observation.causalOrder, SegmentData(bounds.value.0, bounds.value.1, observation.EstimatedAnchor()));
        forall s
          ensures estimate.segment.Covers(s) <==> Speaks(observations, verified, i, s)
        {
          assert Within(bounds, s) <==> estimate.segment.Covers(s);
        }
        assert Voices(estimate, observations, verified, i);
        ghost var before := origins;
        estimates := estimates + [estimate];
        origins := origins + [i];
        assert origins[|before|] == i && forall j :: j in before ==> j in origins;
      } else {
        forall s
          ensures !Speaks(observations, verified, i, s)
        {
          assert !Within(bounds, s);
        }
        assert Silent(observations, verified, i);
      }
    }
  }

  lemma OwnerSpeaks(
    estimates: seq<Estimate>, origins: seq<nat>, observations: seq<Observation>, verified: set<string>,
    i: nat, sequence: int)
    requires Voiced(estimates, origins, observations, verified, |observations|)
    requires i < |observations| && SpeaksLast(observations, verified, i, sequence)
    ensures Latest(estimates, sequence).Some?
    ensures IsEstimate(Latest(estimates, sequence).value.segment.anchor, observations[i])
  {
    assert !Silent(observations, verified, i);
    var k :| 0 <= k < |origins| && origins[k] == i;
    assert Voices(estimates[k], observations, verified, i);
    forall j | 0 <= j < |estimates| && estimates[j].segment.Covers(sequence)
      ensures estimates[j].order < estimates[k].order || (estimates[j].order == estimates[k].order && j <= k)
    {
      assert Voices(estimates[j], observations, verified, origins[j]);
      assert Speaks(observations, verified, origins[j], sequence);
    }
    LatestIsOwner(estimates, k, sequence);
  }

  lemma NobodySpeaks(
    estimates: seq<Estimate>, origins: seq<nat>, observations: seq<Observation>, verified: set<string>, sequence: int)
    requires Voiced(estimates, origins, observations, verified, |observations|)
    requires forall i :: 0 <= i < |observations| ==> !Speaks(observations, verified, i, sequence)
    ensures Latest(estimates, sequence).None?
  {
    forall j | 0 <= j < |estimates|
      ensures !estimates[j].segment.Covers(sequence)
    {
      assert Voices(estimates[j], observations, verified, origins[j]);
    }
    LatestOfUncovered(estimates, sequence);
  }

  /** What the combined map says at one sequence, against what the observations and the confirmed map say. */
  ghost predicate AnswersLike(
    segments: seq<ClockSegment>, confirmed: seq<ClockSegment>,
    observations: seq<Observation>, verified: set<string>, sequence: int)
  {
    if At(confirmed, sequence).Some? then At(segments, sequence) == At(confirmed, sequence)
    else
      && (forall i :: 0 <= i < |observations| && SpeaksLast(observations, verified, i, sequence) ==>
            At(segments, sequence).Some? && IsEstimate(At(segments, sequence).value, observations[i]))
      && ((forall i :: 0 <= i < |observations| ==> !Speaks(observations, verified, i, sequence)) ==>
            At(segments, sequence) == None)
  }

  lemma CombinedAnswers(
    segments: seq<ClockSegment>, confirmed: seq<ClockSegment>, estimates: seq<Estimate>, origins: seq<nat>,
    observations: seq<Observation>, verified: set<string>, sequence: int)
    requires Voiced(estimates, origins, observations, verified, |observations|)
    requires At(segments, sequence) ==
      if At(confirmed, sequence).Some? then At(confirmed, sequence)
      else match Latest(estimates, sequence) case None => None case Some(best) => Some(best.segment.anchor)
    ensures AnswersLike(segments, confirmed, observations, verified, sequence)
  {
    forall i | 0 <= i < |observations| && SpeaksLast(observations, verified, i, sequence)
      ensures Latest(estimates, sequence).Some?
      ensures IsEstimate(Latest(estimates, sequence).value.segment.anchor, observations[i])
    {
      OwnerSpeaks(estimates, origins, observations, verified, i, sequence);
    }
    if forall i :: 0 <= i < |observations| ==> !Speaks(observations, verified, i, sequence) {
      NobodySpeaks(estimates, origins, observations, verified, sequence);
    }
  }

  /** Sorted, layered, topped with the confirmed segments and sorted again: one point of the outcome. */
  lemma CombinedAt(estimates: seq<Estimate>, confirmed: seq<ClockSegment>, sequence: int)
    requires Disjoint(confirmed)
    ensures
      var layers := SegmentsOf(Sort(estimates, OrderedBefore));
      var combined := Layered(Layered([], layers), confirmed);
      && Disjoint(combined)
      && At(Sort(combined, StartsNoLater), sequence) ==
           if At(confirmed, sequence).Some? then At(confirmed, sequence)
           else match Latest(estimates, sequence) case None => None case Some(best) => Some(best.segment.anchor)
  {
    var layers := SegmentsOf(Sort(estimates, OrderedBefore));
    LayeredDisjoint([], layers);
    LayeredDisjoint(Layered([], layers), confirmed);
    SortAt(Layered(Layered([], layers), confirmed), sequence);
    LayeredAt(Layered([], layers), confirmed, sequence);
    LastIsFirst(confirmed, sequence);
    LayeredAt([], layers, sequence);
    OrdersTotal();
    SortOrders(estimates, OrderedBefore);
    SortedLatest(Sort(estimates, OrderedBefore), sequence);
    SortLatest(estimates, sequence);
  }

  /** `segments_with_estimates`: the ordered non-overlap check never fails, and every sequence is answered by its
    * confirmed segment, else by the causally latest observation that may speak for it, else not at all. */
  method SegmentsWithEstimates(observations: seq<Observation>, confirmed: seq<ClockSegment>, verified: set<string>)
    returns (result: Result<seq<ClockSegment>, ClockSegmentError>)
    requires ClockSegmentMap(confirmed).Ok?
    ensures result.Ok? && ClockSegmentMap(result.value).Ok?
    ensures forall s :: AnswersLike(result.value, confirmed, observations, verified, s)
  {
    var estimates := ApproximateSegments(observations, verified);
    ghost var origins: seq<nat> :| Voiced(estimates, origins, observations, verified, |observations|);
    MapAccepts(confirmed);
    if estimates == [] {
      forall s
        ensures AnswersLike(confirmed, confirmed, observations, verified, s)
      {
        CombinedAnswers(confirmed, confirmed, estimates, origins, observations, verified, s);
      }
      return Ok(confirmed);
    }
    var sorted := Sort(estimates, OrderedBefore);
    var segments: seq<ClockSegment> := [];
    for k := 0 to |sorted|
      invariant segments == Layered([], SegmentsOf(sorted)[..k])
    {
      assert SegmentsOf(sorted)[..k + 1][..k] == SegmentsOf(sorted)[..k];
      segments := Overlay(segments, sorted[k].segment);
    }
    ghost var estimated := segments;
    for k := 0 to |confirmed|
      invariant segments == Layered(estimated, confirmed[..k])
    {
      assert confirmed[..k + 1][..k] == confirmed[..k];
      segments := Overlay(segments, confirmed[k]);
    }
    assert SegmentsOf(sorted)[..|sorted|] == SegmentsOf(sorted) && confirmed[..|confirmed|] == confirmed;
    forall s
      ensures Disjoint(segments) && AnswersLike(Sort(segments, StartsNoLater), confirmed, observations, verified, s)
    {
      CombinedAt(estimates, confirmed, s);
      CombinedAnswers(Sort(segments, StartsNoLater), confirmed, estimates, origins, observations, verified, s);
    }
    CombinedAt(estimates, confirmed, 0);
    SortedMapIsValid(segments);
    MapAccepts(Sort(segments, StartsNoLater));
    return ClockSegmentMap(Sort(segments, StartsNoLater));
  }

  // ----- segments of the durable clock state

  datatype ClockRange = ClockRange(
    start: nat, next: nat, offset: Option<real>, uncertainty: Option<real>, confidence: Confidence, sourceId: string)
  {
    /** What `ClockRange.__post_init__` guarantees; an unknown range has neither offset nor uncertainty. */
    predicate Valid() {
      && start < next && sourceId != ""
      && (offset.Some? <==> uncertainty.Some?)
      && (uncertainty.Some? ==> uncertainty.value >= 0.0)
    }
  }

  datatype ClockIntent = ClockIntent(uncertain: bool, writeBefore: nat, writeAfter: Option<nat>)

  datatype ClockState = ClockState(ranges: seq<ClockRange>, intent: Option<ClockIntent>)
  {
    ghost predicate Valid() {
      && (forall i :: 0 <= i < |ranges| ==> ranges[i].Valid())
      && (forall i :: 0 <= i < |ranges| - 1 ==> ranges[i].next <= ranges[i + 1].start)
      && (intent.Some? && intent.value.writeAfter.Some? ==> intent.value.writeBefore <= intent.value.writeAfter.value)
    }

    /** Records written while a clock write was under way have no known clock. */
    predicate InDoubt(sequence: int) {
      && intent.Some? && intent.value.uncertain
      && intent.value.writeBefore <= sequence
      && (intent.value.writeAfter.Some? ==> sequence < intent.value.writeAfter.value)
    }
  }

  function RangeAnchor(item: ClockRange): Anchor
    requires item.Valid() && item.offset.Some?
  {
    Anchor(item.sourceId, item.offset.value, item.uncertainty.value, item.confidence)
  }

  /** `_project_range`. */
  function ProjectRange(item: ClockRange, state: ClockState): seq<ClockSegment>
    requires item.Valid() && item.offset.Some?
    requires state.Valid()
  {
    var segment: ClockSegment := SegmentData(item.start, item.next, RangeAnchor(item));
    if state.intent.None? || !state.intent.value.uncertain then [segment]
    else
      var start, end := state.intent.value.writeBefore, state.intent.value.writeAfter;
      if item.next <= start || (end.Some? && item.start >= end.value) then [segment]
      else
        var left := if item.start < start then [Slice(segment, item.start, start)] else [];
        var right := if end.Some? && item.next > end.value then [Slice(segment, end.value, item.next)] else [];
        left + right
  }

  lemma ProjectRangeAt(item: ClockRange, state: ClockState, sequence: int)
    requires item.Valid() && item.offset.Some? && state.Valid()
    ensures At(ProjectRange(item, state), sequence)
         == if item.start <= sequence < item.next && !state.InDoubt(sequence) then Some(RangeAnchor(item)) else None
  {
    var pieces := ProjectRange(item, state);
    if |pieces| == 2 {
      AtAppend([pieces[0]], [pieces[1]], sequence);
    }
  }

  lemma ProjectRangeShape(item: ClockRange, state: ClockState)
    requires item.Valid() && item.offset.Some? && state.Valid()
    ensures
      var pieces := ProjectRange(item, state);
      && Disjoint(pieces) && Ordered(pieces, StartsNoLater)
      && forall i :: 0 <= i < |pieces| ==> item.start <= pieces[i].start && pieces[i].next <= item.next
  {}

  /** `from_state` before its check. */
  function Projected(ranges: seq<ClockRange>, state: ClockState): seq<ClockSegment>
    requires state.Valid()
    requires forall i :: 0 <= i < |ranges| ==> ranges[i].Valid()
    decreases |ranges|
  {
    if ranges == [] then []
    else
      var n := |ranges| - 1;
      Projected(ranges[..n], state) + (if ranges[n].offset.Some? then ProjectRange(ranges[n], state) else [])
  }

  /** The anchor the clock state holds for a sequence. */
  ghost predicate Holds(state: ClockState, i: nat, sequence: int)
    requires i < |state.ranges|
  {
    state.ranges[i].start <= sequence < state.ranges[i].next && state.ranges[i].offset.Some? && !state.InDoubt(sequence)
  }

  lemma {:induction false} RangesAscend(ranges: seq<ClockRange>, i: nat, j: nat)
    requires i < j < |ranges|
    requires forall k :: 0 <= k < |ranges| ==> ranges[k].Valid()
    requires forall k :: 0 <= k < |ranges| - 1 ==> ranges[k].next <= ranges[k + 1].start
    ensures ranges[i].next <= ranges[j].start
    decreases j - i
  {
    if i + 1 < j {
      RangesAscend(ranges, i + 1, j);
    }
  }

  lemma {:induction false} ProjectedIsMap(state: ClockState, n: nat)
    requires state.Valid() && n <= |state.ranges|
    ensures
      var segments := Projected(state.ranges[..n], state);
      && Disjoint(segments) && Ordered(segments, StartsNoLater)
      && (forall k :: 0 <= k < |segments| ==> n > 0 && segments[k].next <= state.ranges[n - 1].next)
  {
    if n > 0 {
      var front := Projected(state.ranges[..n - 1], state);
      var item := state.ranges[n - 1];
      ProjectedIsMap(state, n - 1);
      assert state.ranges[..n][..n - 1] == state.ranges[..n - 1];
      forall k | 0 <= k < |front|
        ensures front[k].next <= item.start
      {
        assert state.ranges[n - 2].next <= item.start;
      }
      if item.offset.Some? {
        ProjectRangeShape(item, state);
        DisjointAppend(front, ProjectRange(item, state));
      }
    }
  }

  lemma {:induction false} ProjectedAt(state: ClockState, n: nat, sequence: int)
    requires state.Valid() && n <= |state.ranges|
    ensures
      var said := At(Projected(state.ranges[..n], state), sequence);
      && (forall i :: 0 <= i < n && Holds(state, i, sequence) ==> said == Some(RangeAnchor(state.ranges[i])))
      && ((forall i :: 0 <= i < n ==> !Holds(state, i, sequence)) ==> said == None)
  {
    if n > 0 {
      var front := Projected(state.ranges[..n - 1], state);
      var item := state.ranges[n - 1];
      ProjectedAt(state, n - 1, sequence);
      assert state.ranges[..n][..n - 1] == state.ranges[..n - 1];
      if item.offset.Some? {
        ProjectRangeAt(item, state, sequence);
        AtAppend(front, ProjectRange(item, state), sequence);
      } else {
        assert front + [] == front;
      }
      if Holds(state, n - 1, sequence) {
        forall i | 0 <= i < n - 1
          ensures !Holds(state, i, sequence)
        {
          RangesAscend(state.ranges, i, n - 1);
        }
      }
    }
  }

  /** `ClockSegmentMap.from_state`: the projection of a valid clock state is always a valid map, and answers with the
    * known range owning the sequence unless an unfinished clock write puts it in doubt. */
  lemma FromState(state: ClockState, sequence: int)
    requires state.Valid()
    ensures
      var segments := Projected(state.ranges, state);
      && ClockSegmentMap(segments) == Ok(segments)
      && (forall i :: 0 <= i < |state.ranges| && Holds(state, i, sequence) ==>
            At(segments, sequence) == Some(RangeAnchor(state.ranges[i])))
      && ((forall i :: 0 <= i < |state.ranges| ==> !Holds(state, i, sequence)) ==> At(segments, sequence) == None)
  {
    assert state.ranges[..|state.ranges|] == state.ranges;
    ProjectedIsMap(state, |state.ranges|);
    MapAccepts(Projected(state.ranges, state));
    ProjectedAt(state, |state.ranges|, sequence);
  }
}
