/** The UTC times of stored records, refreshed a bounded page at a time when the clock mapping changes. */
module UtcProjection {
  import opened Bytes
  import opened ClockSegments
  import opened Sorting

  /** Source identities and revisions are fixed-length hexadecimal text; both are compared as the numbers they write. */
  type SourceId = nat
  type Revision = nat

  datatype Row = Row(source: SourceId, ordinal: nat, timestamp: nat, utc: Option<nat>, revision: Option<Revision>)

  datatype SourceInfo = SourceInfo(start: nat, published: bool)

  type Sources = map<SourceId, SourceInfo>

  /** What a clock payload means: its revision, and the segments it decodes to. */
  datatype Clock = Clock(revisionOf: string -> Revision, segmentsOf: string -> seq<ClockSegment>, default: string)
  {
    function Authoritative(payload: Option<string>): string {
      if payload.Some? then payload.value else default
    }

    function Revision(payload: Option<string>): Revision { revisionOf(Authoritative(payload)) }

    function Segments(payload: Option<string>): seq<ClockSegment> { segmentsOf(Authoritative(payload)) }
  }

  // ----- one row

  /** `_project_utc_timestamp`, given what the map says. */
  function Normalized(projected: Option<real>): Option<nat> {
    if projected.None? then None
    else
      var whole := (projected.value + 0.5).Floor;
      if 0 <= whole <= UINT32_MAX then Some(whole) else None
  }

  /** The time `segments` give a record: the anchor of the segment that owns its sequence number, or nothing. */
  function ProjectedUtc(segments: seq<ClockSegment>, sequence: nat, timestamp: nat): Option<nat> {
    match At(segments, sequence)
    case None => None
    case Some(anchor) => Normalized(Some(timestamp as real + anchor.utcOffset))
  }

  /** `whole` is the whole number nearest to `exact`, the greater of two that are equally near. */
  predicate Nearest(whole: int, exact: real) {
    exact - 0.5 < whole as real <= exact + 0.5
  }

  /** The first segment that covers `sequence` is the `i`-th. */
  predicate Owns(segments: seq<ClockSegment>, i: int, sequence: int) {
    && 0 <= i < |segments|
    && segments[i].start <= sequence < segments[i].next
    && forall j :: 0 <= j < i ==> !(segments[j].start <= sequence < segments[j].next)
  }

  /** `whole` is the second nearest to the record's own time moved by the offset of the `i`-th segment, which owns it. */
  predicate IsTimeBy(whole: int, segments: seq<ClockSegment>, i: int, sequence: int, timestamp: nat) {
    Owns(segments, i, sequence) && Nearest(whole, timestamp as real + segments[i].anchor.utcOffset)
  }

  /** The stored time of a record: the one its owning segment gives it, if 32 bits hold it, and otherwise none. */
  ghost predicate IsTimeOf(utc: Option<nat>, segments: seq<ClockSegment>, sequence: nat, timestamp: nat) {
    match utc
    case Some(time) => time < 0x1_0000_0000 && exists i :: IsTimeBy(time, segments, i, sequence, timestamp)
    case None => forall i, whole :: IsTimeBy(whole, segments, i, sequence, timestamp) ==> !(0 <= whole < 0x1_0000_0000)
  }

  lemma NearestIs(whole: int, exact: real)
    ensures Nearest(whole, exact) <==> whole == (exact + 0.5).Floor
  {
    var floor := (exact + 0.5).Floor;
    assert floor as real <= exact + 0.5 < (floor + 1) as real;
    if Nearest(whole, exact) && whole != floor {
      assert whole < floor ==> (whole + 1) as real <= floor as real;
      assert whole > floor ==> whole as real >= (floor + 1) as real;
    }
  }

  lemma {:induction false} OwnerSpeaks(segments: seq<ClockSegment>, sequence: int)
    ensures At(segments, sequence).Some? ==>
      exists i :: Owns(segments, i, sequence) && At(segments, sequence) == Some(segments[i].anchor)
    ensures forall i :: Owns(segments, i, sequence) ==> At(segments, sequence) == Some(segments[i].anchor)
  {
    if segments != [] {
      var rest := segments[1..];
      OwnerSpeaks(rest, sequence);
      if !segments[0].Covers(sequence) {
        forall i | Owns(segments, i, sequence)
          ensures At(segments, sequence) == Some(segments[i].anchor)
        {
          assert forall j :: 0 <= j < |rest| ==> rest[j] == segments[j + 1];
          assert Owns(rest, i - 1, sequence);
        }
        if i :| Owns(rest, i, sequence) && At(rest, sequence) == Some(rest[i].anchor) {
          assert forall j :: 1 <= j < |segments| ==> segments[j] == rest[j - 1];
          assert Owns(segments, i + 1, sequence);
        }
      } else {
        assert Owns(segments, 0, sequence);
      }
    }
  }

  lemma ProjectedIsTime(segments: seq<ClockSegment>, sequence: nat, timestamp: nat)
    ensures IsTimeOf(ProjectedUtc(segments, sequence, timestamp), segments, sequence, timestamp)
  {
    hide At, Nearest;
    OwnerSpeaks(segments, sequence);
    forall i, whole
      ensures IsTimeBy(whole, segments, i, sequence, timestamp) <==>
        && Owns(segments, i, sequence)
        && At(segments, sequence).Some?
        && whole == (timestamp as real + At(segments, sequence).value.utcOffset + 0.5).Floor
    {
      if Owns(segments, i, sequence) {
        NearestIs(whole, timestamp as real + At(segments, sequence).value.utcOffset);
      }
    }
    if At(segments, sequence).Some? {
      var i :| Owns(segments, i, sequence) && At(segments, sequence) == Some(segments[i].anchor);
      var whole := (timestamp as real + At(segments, sequence).value.utcOffset + 0.5).Floor;
      assert IsTimeBy(whole, segments, i, sequence, timestamp);
    }
  }

  predicate Unpublished(row: Row, sources: Sources) {
    row.source in sources && !sources[row.source].published
  }

  predicate Stale(row: Row, sources: Sources, revision: Revision) {
    Unpublished(row, sources) && row.revision != Some(revision)
  }

  /** The three indexed scans; a comparison with NULL selects nothing. */
  predicate Scans(k: nat, row: Row, sources: Sources, revision: Revision) {
    && Unpublished(row, sources)
    && if k == 0 then row.revision.None?
       else if k == 1 then row.revision.Some? && row.revision.value < revision
       else row.revision.Some? && row.revision.value > revision
  }

  function Refreshed(row: Row, sources: Sources, clock: Clock, payload: Option<string>): Row
    requires row.source in sources
  {
    row.(utc := ProjectedUtc(clock.Segments(payload), sources[row.source].start + row.ordinal, row.timestamp),
         revision := Some(clock.Revision(payload)))
  }

  // ----- tables

  /** The primary key. */
  predicate Keyed(table: seq<Row>) {
    forall i, j :: 0 <= i < j < |table| ==> table[i].source != table[j].source || table[i].ordinal != table[j].ordinal
  }

  function Scan(k: nat, table: seq<Row>, sources: Sources, revision: Revision): seq<Row> {
    if table == [] then []
    else
      var n := |table| - 1;
      Scan(k, table[..n], sources, revision) + if Scans(k, table[n], sources, revision) then [table[n]] else []
  }

  function StaleCount(table: seq<Row>, sources: Sources, revision: Revision): nat {
    if table == [] then 0
    else
      var n := |table| - 1;
      StaleCount(table[..n], sources, revision) + if Stale(table[n], sources, revision) then 1 else 0
  }

  /** The rows the first `k` scans select. */
  function Met(k: nat, table: seq<Row>, sources: Sources, revision: Revision): seq<Row> {
    if k == 0 then [] else Met(k - 1, table, sources, revision) + Scan(k - 1, table, sources, revision)
  }

  /** Every stale row meets exactly one of the three scans, and no other row meets any. */
  lemma {:induction false} ScansPartition(table: seq<Row>, sources: Sources, revision: Revision)
    ensures |Scan(0, table, sources, revision)| + |Scan(1, table, sources, revision)| + |Scan(2, table, sources, revision)|
      == StaleCount(table, sources, revision)
    ensures multiset(Scan(0, table, sources, revision)) + multiset(Scan(1, table, sources, revision))
      + multiset(Scan(2, table, sources, revision)) <= multiset(table)
    decreases |table|
  {
    if table != [] {
      var n := |table| - 1;
      ScansPartition(table[..n], sources, revision);
      assert table == table[..n] + [table[n]];
    }
  }

  lemma AllMet(table: seq<Row>, sources: Sources, revision: Revision)
    ensures |Met(3, table, sources, revision)| == StaleCount(table, sources, revision)
    ensures multiset(Met(3, table, sources, revision)) <= multiset(table)
  {
    ScansPartition(table, sources, revision);
    hide Scan, StaleCount;
    MetNext(0, table, sources, revision);
    MetNext(1, table, sources, revision);
    MetNext(2, table, sources, revision);
  }

  lemma {:induction false} MetGrows(k: nat, n: nat, table: seq<Row>, sources: Sources, revision: Revision)
    requires k <= n
    ensures |Met(k, table, sources, revision)| <= |Met(n, table, sources, revision)|
    ensures multiset(Met(k, table, sources, revision)) <= multiset(Met(n, table, sources, revision))
    decreases n
  {
    if k < n {
      MetGrows(k, n - 1, table, sources, revision);
    }
  }

  lemma {:induction false} ScanSelects(k: nat, table: seq<Row>, sources: Sources, revision: Revision)
    ensures forall row <- Scan(k, table, sources, revision) :: row in table && Scans(k, row, sources, revision)
    ensures k < 3 ==> forall row <- Scan(k, table, sources, revision) :: Stale(row, sources, revision)
    decreases |table|
  {
    if table != [] {
      ScanSelects(k, table[..|table| - 1], sources, revision);
    }
  }

  /** `ORDER BY mapping_revision, source_id, ordinal`, NULL first. */
  predicate InOrder(a: Row, b: Row) {
    var x, y := Rank(a), Rank(b);
    x < y || (x == y && (a.source < b.source || (a.source == b.source && a.ordinal <= b.ordinal)))
  }

  function Rank(row: Row): int {
    if row.revision.None? then -1 else row.revision.value
  }

  lemma InOrderTotal()
    ensures TotalOrder(InOrder)
  {}

  /** `a` has no revision, or an older one, or the same one and no greater key. */
  predicate NoLater(a: Row, b: Row) {
    || (a.revision.None? && b.revision.Some?)
    || (a.revision.Some? && b.revision.Some? && a.revision.value < b.revision.value)
    || (a.revision == b.revision && (a.source < b.source || (a.source == b.source && a.ordinal <= b.ordinal)))
  }

  ghost predicate NoneLater(rows: seq<Row>, row: Row) {
    forall i :: 0 <= i < |rows| ==> NoLater(rows[i], row)
  }

  ghost predicate Ascends(rows: seq<Row>) {
    forall i, j :: 0 <= i < j < |rows| ==> NoLater(rows[i], rows[j])
  }

  /**
   * What one call is to refresh: different stale rows of the table, as many as the limit allows, and none that comes
   * after a stale row it leaves out.
   */
  ghost predicate Selection(rows: seq<Row>, table: seq<Row>, sources: Sources, revision: Revision, limit: nat) {
    && |rows| == AtMost(limit, StaleCount(table, sources, revision))
    && (forall i :: 0 <= i < |rows| ==> rows[i] in table && Stale(rows[i], sources, revision))
    && multiset(rows) <= multiset(table)
    && Ascends(rows)
    && forall row :: row in table && Stale(row, sources, revision) && row !in rows ==> NoneLater(rows, row)
  }

  // ----- which rows come first

  lemma {:induction false} ScanMembers(k: nat, table: seq<Row>, sources: Sources, revision: Revision, row: Row)
    ensures row in Scan(k, table, sources, revision) <==> row in table && Scans(k, row, sources, revision)
    decreases |table|
  {
    if table != [] {
      var n := |table| - 1;
      ScanMembers(k, table[..n], sources, revision, row);
      assert table == table[..n] + [table[n]];
    }
  }

  lemma {:induction false} MetMembers(k: nat, table: seq<Row>, sources: Sources, revision: Revision, row: Row)
    requires k <= 3
    ensures row in Met(k, table, sources, revision) <==>
      row in table && exists q: nat :: q < k && Scans(q, row, sources, revision)
  {
    if k > 0 {
      MetMembers(k - 1, table, sources, revision, row);
      ScanMembers(k - 1, table, sources, revision, row);
    }
  }

  /** Every row an earlier scan selects comes before every row a later one selects. */
  lemma ScansAscend(q: nat, k: nat, a: Row, b: Row, sources: Sources, revision: Revision)
    requires q < k < 3 && Scans(q, a, sources, revision) && Scans(k, b, sources, revision)
    ensures NoLater(a, b)
  {}

  lemma StaleIsScanned(row: Row, sources: Sources, revision: Revision)
    ensures Stale(row, sources, revision) <==> exists q: nat :: q < 3 && Scans(q, row, sources, revision)
  {
    if Stale(row, sources, revision) {
      assert Scans(0, row, sources, revision) || Scans(1, row, sources, revision) || Scans(2, row, sources, revision);
    }
  }

  /** `rows` are the first of `among`. */
  ghost predicate FirstOf(rows: seq<Row>, among: seq<Row>) {
    Ascends(rows) && forall row :: row in among && row !in rows ==> NoneLater(rows, row)
  }

  lemma OrderIsNoLater(a: Row, b: Row)
    ensures InOrder(a, b) <==> NoLater(a, b)
  {}

  lemma SortedAscends(selected: seq<Row>)
    ensures multiset(Sort(selected, InOrder)) == multiset(selected)
    ensures Ascends(Sort(selected, InOrder))
  {
    hide Sort, NoLater;
    InOrderTotal();
    SortOrders(selected, InOrder);
    var sorted := Sort(selected, InOrder);
    hide InOrder;
    forall i, j | 0 <= i < j < |sorted|
      ensures NoLater(sorted[i], sorted[j])
    {
      OrderIsNoLater(sorted[i], sorted[j]);
    }
  }

  lemma PrefixHas(sorted: seq<Row>, n: nat, j: nat)
    requires j < |sorted| && n <= |sorted|
    ensures j < n ==> sorted[j] in sorted[..n]
  {
    if j < n {
      assert sorted[..n][j] == sorted[j];
    }
  }

  lemma PrefixFirst(sorted: seq<Row>, n: nat)
    requires Ascends(sorted) && n <= |sorted|
    ensures FirstOf(sorted[..n], sorted)
  {
    hide NoLater;
    var first := sorted[..n];
    forall row | row in sorted && row !in first
      ensures NoneLater(first, row)
    {
      var j :| 0 <= j < |sorted| && sorted[j] == row;
      PrefixHas(sorted, n, j);
    }
  }

  lemma SortedFirst(selected: seq<Row>, n: nat)
    requires n <= |selected|
    ensures |Sort(selected, InOrder)| == |selected|
    ensures FirstOf(Sort(selected, InOrder)[..n], selected)
  {
    hide Sort, InOrder, NoLater, NoneLater;
    SortedAscends(selected);
    var sorted := Sort(selected, InOrder);
    assert |multiset(sorted)| == |multiset(selected)|;
    PrefixFirst(sorted, n);
    forall row | row in selected
      ensures row in sorted
    {
      assert row in multiset(sorted);
    }
  }

  lemma JoinFirst(rows: seq<Row>, met: seq<Row>, more: seq<Row>, selected: seq<Row>)
    requires FirstOf(rows, met) && FirstOf(more, selected)
    requires forall row :: row in rows <==> row in met
    requires forall row :: row in more ==> row in selected
    requires forall a, b :: a in met && b in selected ==> NoLater(a, b)
    ensures FirstOf(rows + more, met + selected)
  {
    var all := rows + more;
    hide NoLater;
    forall i, j | 0 <= i < j < |all|
      ensures NoLater(all[i], all[j])
    {
      if i < |rows| <= j {
        assert all[i] == rows[i] && all[j] == more[j - |rows|];
        assert rows[i] in met && more[j - |rows|] in selected;
      } else if i >= |rows| {
        assert all[i] == more[i - |rows|] && all[j] == more[j - |rows|];
      }
    }
    forall row | row in met + selected && row !in all
      ensures NoneLater(all, row)
    {
      assert row in selected && row !in more && row !in rows;
      forall i | 0 <= i < |all|
        ensures NoLater(all[i], row)
      {
        if i < |rows| {
          assert all[i] == rows[i] && rows[i] in met;
        } else {
          assert all[i] == more[i - |rows|];
        }
      }
    }
  }

  /** As many rows as there are, and no others, are all of them. */
  lemma WholeWithin<T>(rows: seq<T>, met: seq<T>)
    requires multiset(rows) <= multiset(met) && |rows| == |met|
    ensures forall row :: row in rows <==> row in met
  {
    assert multiset(met) - multiset(rows) == multiset{} by {
      assert |multiset(met) - multiset(rows)| == 0;
    }
    forall row
      ensures row in rows <==> row in met
    {
      assert (multiset(met) - multiset(rows))[row] == 0;
      assert row in rows <==> row in multiset(rows);
      assert row in met <==> row in multiset(met);
    }
  }

  /** The first `k` scans and the next: the rows gathered so far are all of theirs, so the next scan's come after. */
  lemma FirstOfMore(k: nat, rows: seq<Row>, more: seq<Row>, table: seq<Row>, sources: Sources, revision: Revision)
    requires k < 3 && FirstOf(rows, Met(k, table, sources, revision))
    requires multiset(rows) <= multiset(Met(k, table, sources, revision)) && |rows| == |Met(k, table, sources, revision)|
    requires FirstOf(more, Scan(k, table, sources, revision))
    requires forall row :: row in more ==> row in Scan(k, table, sources, revision)
    ensures FirstOf(rows + more, Met(k + 1, table, sources, revision))
  {
    hide FirstOf, Met, Scan, Scans, NoLater;
    var met, selected := Met(k, table, sources, revision), Scan(k, table, sources, revision);
    MetNext(k, table, sources, revision);
    WholeWithin(rows, met);
    forall a, b | a in met && b in selected
      ensures NoLater(a, b)
    {
      MetMembers(k, table, sources, revision, a);
      ScanMembers(k, table, sources, revision, b);
      var q: nat :| q < k && Scans(q, a, sources, revision);
      ScansAscend(q, k, a, b, sources, revision);
    }
    JoinFirst(rows, met, more, selected);
  }

  /** What the first `k` scans gave comes before every stale row that they left out or did not meet. */
  lemma FirstOfStale(k: nat, rows: seq<Row>, table: seq<Row>, sources: Sources, revision: Revision)
    requires k <= 3 && FirstOf(rows, Met(k, table, sources, revision))
    requires multiset(rows) <= multiset(Met(k, table, sources, revision))
    ensures forall row :: row in table && Stale(row, sources, revision) && row !in rows ==> NoneLater(rows, row)
  {
    hide Met, Scan, Scans, NoLater, Stale;
    forall row | row in table && Stale(row, sources, revision) && row !in rows
      ensures NoneLater(rows, row)
    {
      StaleIsScanned(row, sources, revision);
      var q: nat :| q < 3 && Scans(q, row, sources, revision);
      MetMembers(k, table, sources, revision, row);
      if q >= k {
        forall i | 0 <= i < |rows|
          ensures NoLater(rows[i], row)
        {
          assert rows[i] in multiset(rows);
          assert rows[i] in multiset(Met(k, table, sources, revision));
          MetMembers(k, table, sources, revision, rows[i]);
          var p: nat :| p < k && Scans(p, rows[i], sources, revision);
          ScansAscend(p, q, rows[i], row, sources, revision);
        }
      }
    }
  }

  lemma JoinWithin<T>(a: seq<T>, b: seq<T>, c: seq<T>, d: seq<T>)
    requires multiset(a) <= multiset(c) && multiset(b) <= multiset(d)
    ensures multiset(a + b) <= multiset(c + d)
  {
    assert multiset(a + b) == multiset(a) + multiset(b) && multiset(c + d) == multiset(c) + multiset(d);
  }

  lemma PrefixWithin<T>(s: seq<T>, n: nat)
    requires n <= |s|
    ensures multiset(s[..n]) <= multiset(s)
  {
    assert s == s[..n] + s[n..];
  }

  lemma OrderedPrefix(selected: seq<Row>, n: nat)
    requires n <= |selected|
    ensures multiset(Sort(selected, InOrder)[..n]) <= multiset(selected)
    ensures forall row <- Sort(selected, InOrder)[..n] :: row in selected
  {
    InOrderTotal();
    SortOrders(selected, InOrder);
    hide Sort, InOrder;
    var sorted := Sort(selected, InOrder);
    PrefixWithin(sorted, n);
    forall row | row in sorted[..n]
      ensures row in selected
    {
      assert row in multiset(sorted[..n]);
    }
  }

  /** As many as the limit allows of the rows the first `k` scans select. */
  ghost predicate Gathered(k: nat, rows: seq<Row>, table: seq<Row>, sources: Sources, revision: Revision, limit: nat) {
    && |rows| == AtMost(limit, |Met(k, table, sources, revision)|)
    && multiset(rows) <= multiset(Met(k, table, sources, revision))
    && FirstOf(rows, Met(k, table, sources, revision))
    && forall i :: 0 <= i < |rows| ==> rows[i] in table && Stale(rows[i], sources, revision)
  }

  function AtMost(limit: nat, n: nat): nat { if limit <= n then limit else n }

  lemma GatherMore(k: nat, rows: seq<Row>, more: seq<Row>, table: seq<Row>, sources: Sources, revision: Revision, limit: nat)
    requires Gathered(k, rows, table, sources, revision, limit) && k < 3 && |rows| < limit
    requires var selected := Scan(k, table, sources, revision);
      more == Sort(selected, InOrder)[..AtMost(limit - |rows|, |selected|)]
    ensures Gathered(k + 1, rows + more, table, sources, revision, limit)
  {
    hide Sort, Scan, Scans, Stale, InOrder, Met, FirstOf;
    var selected := Scan(k, table, sources, revision);
    SortedFirst(selected, AtMost(limit - |rows|, |selected|));
    ScanSelects(k, table, sources, revision);
    OrderedPrefix(selected, AtMost(limit - |rows|, |selected|));
    MetNext(k, table, sources, revision);
    FirstOfMore(k, rows, more, table, sources, revision);
    JoinWithin(rows, more, Met(k, table, sources, revision), selected);
    forall i | 0 <= i < |more|
      ensures more[i] in table && Stale(more[i], sources, revision)
    {
      assert more[i] in selected;
    }
  }

  lemma MetNext(k: nat, table: seq<Row>, sources: Sources, revision: Revision)
    ensures Met(k + 1, table, sources, revision) == Met(k, table, sources, revision) + Scan(k, table, sources, revision)
  {}

  lemma GatheredIsSelection(k: nat, rows: seq<Row>, table: seq<Row>, sources: Sources, revision: Revision, limit: nat)
    requires Gathered(k, rows, table, sources, revision, limit) && k <= 3 && (k == 3 || |rows| == limit)
    ensures Selection(rows, table, sources, revision, limit)
  {
    hide Met, Stale, StaleCount, NoLater;
    AllMet(table, sources, revision);
    MetGrows(k, 3, table, sources, revision);
    FirstOfStale(k, rows, table, sources, revision);
  }

  /** `_stale_projection_rows`. */
  method StaleProjectionRows(table: seq<Row>, sources: Sources, revision: Revision, limit: nat) returns (rows: seq<Row>)
    ensures Selection(rows, table, sources, revision, limit)
  {
    hide Gathered, Selection, Sort, Scan, Met;
    rows := [];
    NothingGathered(table, sources, revision, limit);
    var k := 0;
    while k < 3
      invariant k <= 3 && Gathered(k, rows, table, sources, revision, limit) && |rows| <= limit
    {
      var remaining := limit - |rows|;
      if remaining == 0 {
        break;
      }
      var selected := Scan(k, table, sources, revision);
      var more := Sort(selected, InOrder)[..AtMost(remaining, |selected|)];
      GatherMore(k, rows, more, table, sources, revision, limit);
      rows, k := rows + more, k + 1;
    }
    GatheredIsSelection(k, rows, table, sources, revision, limit);
  }

  lemma NothingGathered(table: seq<Row>, sources: Sources, revision: Revision, limit: nat)
    ensures Gathered(0, [], table, sources, revision, limit)
  {}

  // ----- the refresh

  /** Where the row with this key is. */
  function IndexOf(table: seq<Row>, row: Row): (i: nat)
    requires row in table
    ensures i < |table| && table[i].source == row.source && table[i].ordinal == row.ordinal
    decreases |table|
  {
    var n := |table| - 1;
    if table[n].source == row.source && table[n].ordinal == row.ordinal then n
    else
      assert row in table[..n];
      IndexOf(table[..n], row)
  }

  lemma KeyFindsRow(table: seq<Row>, i: nat, row: Row)
    requires Keyed(table) && row in table && i < |table| && table[i].source == row.source && table[i].ordinal == row.ordinal
    ensures table[i] == row
  {
    var j :| 0 <= j < |table| && table[j] == row;
  }

  lemma {:induction false} UpdateCounts(table: seq<Row>, i: nat, row: Row, sources: Sources, revision: Revision)
    requires i < |table| && Stale(table[i], sources, revision) && !Stale(row, sources, revision)
    ensures StaleCount(table[i := row], sources, revision) == StaleCount(table, sources, revision) - 1
    decreases |table|
  {
    var n := |table| - 1;
    assert table[i := row][..n] == if i < n then table[..n][i := row] else table[..n];
    if i < n {
      UpdateCounts(table[..n], i, row, sources, revision);
    }
  }

  /** `now` is `before` with the first `k` selected rows refreshed and every other row as it was. */
  ghost predicate Partly(before: seq<Row>, now: seq<Row>, rows: seq<Row>, k: nat, sources: Sources, clock: Clock,
                         payload: Option<string>)
    requires k <= |rows|
  {
    && |now| == |before|
    && (forall i :: 0 <= i < |rows| ==> rows[i].source in sources)
    && forall i :: 0 <= i < |before| ==> now[i] == AfterRefresh(before[i], rows[..k], sources, clock, payload)
  }

  ghost function AfterRefresh(row: Row, selected: seq<Row>, sources: Sources, clock: Clock, payload: Option<string>): Row {
    if row in selected && row.source in sources then Refreshed(row, sources, clock, payload) else row
  }

  lemma KeyedCounts(table: seq<Row>, row: Row)
    requires Keyed(table)
    ensures multiset(table)[row] <= 1
    decreases |table|
  {
    if table != [] {
      var n := |table| - 1;
      assert table == table[..n] + [table[n]];
      KeyedCounts(table[..n], row);
      if row == table[n] {
        assert row !in table[..n];
        assert multiset(table[..n])[row] == 0;
      }
    }
  }

  lemma CountsTwice<T>(s: seq<T>, i: nat, j: nat)
    requires i < j < |s| && s[i] == s[j]
    ensures multiset(s)[s[i]] >= 2
  {
    assert s == s[..j] + [s[j]] + s[j + 1..];
    assert s[i] in s[..j];
  }

  /** No row is selected twice. */
  lemma SelectedOnce(rows: seq<Row>, table: seq<Row>, i: nat, j: nat)
    requires Keyed(table) && multiset(rows) <= multiset(table) && i < j < |rows|
    ensures rows[i] != rows[j]
  {
    KeyedCounts(table, rows[i]);
    if rows[i] == rows[j] {
      CountsTwice(rows, i, j);
    }
  }

  lemma NotYetRefreshed(before: seq<Row>, now: seq<Row>, rows: seq<Row>, k: nat, sources: Sources, clock: Clock,
                        payload: Option<string>)
    requires k < |rows| && Partly(before, now, rows, k, sources, clock, payload)
    requires Keyed(before) && multiset(rows) <= multiset(before)
    ensures rows[k] in now && rows[k] in before
  {
    assert rows[k] in multiset(rows);
    assert rows[k] in multiset(before);
    var x :| 0 <= x < |before| && before[x] == rows[k];
    if rows[k] in rows[..k] {
      var i :| 0 <= i < k && rows[..k][i] == rows[k];
      SelectedOnce(rows, before, i, k);
    }
    assert now[x] == rows[k];
  }

  lemma SameKeys(before: seq<Row>, now: seq<Row>)
    requires Keyed(before) && |now| == |before|
    requires forall i :: 0 <= i < |now| ==> now[i].source == before[i].source && now[i].ordinal == before[i].ordinal
    ensures Keyed(now)
  {}

  lemma PartlyKeyed(before: seq<Row>, now: seq<Row>, rows: seq<Row>, k: nat, sources: Sources, clock: Clock,
                    payload: Option<string>)
    requires k <= |rows| && Partly(before, now, rows, k, sources, clock, payload) && Keyed(before)
    ensures Keyed(now)
  {
    hide ProjectedUtc;
    SameKeys(before, now);
  }

  lemma PartlyNext(before: seq<Row>, now: seq<Row>, rows: seq<Row>, k: nat, i: nat, sources: Sources, clock: Clock,
                   payload: Option<string>)
    requires k < |rows| && Partly(before, now, rows, k, sources, clock, payload)
    requires Keyed(before) && multiset(rows) <= multiset(before)
    requires i < |now| && now[i] == rows[k]
    ensures Partly(before, now[i := Refreshed(rows[k], sources, clock, payload)], rows, k + 1, sources, clock, payload)
  {
    hide ProjectedUtc;
    var next := now[i := Refreshed(rows[k], sources, clock, payload)];
    NotYetRefreshed(before, now, rows, k, sources, clock, payload);
    PartlyKeyed(before, now, rows, k, sources, clock, payload);
    var x :| 0 <= x < |before| && before[x] == rows[k];
    KeyFindsRow(before, i, rows[k]);
    forall y | 0 <= y < |before|
      ensures next[y] == AfterRefresh(before[y], rows[..k + 1], sources, clock, payload)
    {
      assert before[y] in rows[..k + 1] <==> before[y] in rows[..k] || before[y] == rows[k] by {
        assert rows[..k + 1] == rows[..k] + [rows[k]];
      }
      if y != i {
        assert before[y] != rows[k];
      }
    }
  }

  /** The row's revision says its time is the one `payload` gives it. */
  predicate Faithful(row: Row, sources: Sources, clock: Clock, payload: Option<string>) {
    Unpublished(row, sources) && row.revision == Some(clock.Revision(payload)) ==>
      row == Refreshed(row, sources, clock, payload)
  }

  predicate AllFaithful(table: seq<Row>, sources: Sources, clock: Clock, payload: Option<string>) {
    forall i :: 0 <= i < |table| ==> Faithful(table[i], sources, clock, payload)
  }

  /** Different payloads have different revisions, as far as this one is concerned. */
  ghost predicate Distinguished(clock: Clock, payload: Option<string>) {
    forall other: Option<string> :: clock.Revision(other) == clock.Revision(payload) ==>
      clock.Authoritative(other) == clock.Authoritative(payload)
  }

  /** One call: `count` stale rows were refreshed, nothing else changed. */
  ghost predicate RefreshedSome(before: seq<Row>, now: seq<Row>, count: nat, sources: Sources, clock: Clock,
                                payload: Option<string>)
  {
    && |now| == |before|
    && StaleCount(now, sources, clock.Revision(payload)) + count == StaleCount(before, sources, clock.Revision(payload))
    && forall i :: 0 <= i < |before| ==>
         || now[i] == before[i]
         || (Stale(before[i], sources, clock.Revision(payload)) && now[i] == Refreshed(before[i], sources, clock, payload))
  }

  /** No stale row was refreshed before one that has no revision, an older one, or a smaller key. */
  ghost predicate OldestFirst(before: seq<Row>, now: seq<Row>, sources: Sources, revision: Revision) {
    && |now| == |before|
    && forall i, j ::
         0 <= i < |before| && 0 <= j < |before| && now[i] != before[i] && now[j] == before[j] ==>
           Stale(before[j], sources, revision) ==> NoLater(before[i], before[j])
  }

  /** The count of stale rows is the number of their places. */
  lemma {:induction false} StaleAreCounted(table: seq<Row>, sources: Sources, revision: Revision)
    ensures StaleCount(table, sources, revision) == |StalePlaces(table, sources, revision)|
    decreases |table|
  {
    if table != [] {
      var n := |table| - 1;
      StaleAreCounted(table[..n], sources, revision);
      assert StalePlaces(table, sources, revision) ==
        StalePlaces(table[..n], sources, revision) + if Stale(table[n], sources, revision) then {n} else {};
    }
  }

  ghost function StalePlaces(table: seq<Row>, sources: Sources, revision: Revision): set<int> {
    set i | 0 <= i < |table| && Stale(table[i], sources, revision)
  }

  /** An unpublished row has the revision of the payload, or of the default payload, and the time that payload gives it. */
  ghost predicate Current(row: Row, sources: Sources, clock: Clock, payload: Option<string>) {
    row.source in sources && !sources[row.source].published ==>
      var text := if payload.Some? then payload.value else clock.default;
      && row.revision == Some(clock.revisionOf(text))
      && IsTimeOf(row.utc, clock.segmentsOf(text), sources[row.source].start + row.ordinal, row.timestamp)
  }

  /** Only times and revisions of unpublished rows have changed. */
  ghost predicate OnlyProjected(before: seq<Row>, now: seq<Row>, sources: Sources) {
    && |now| == |before|
    && forall i :: 0 <= i < |before| ==>
         && now[i] == before[i].(utc := now[i].utc, revision := now[i].revision)
         && (now[i] != before[i] ==> before[i].source in sources && !sources[before[i].source].published)
  }

  lemma RefreshedOnlyProjects(first: seq<Row>, before: seq<Row>, now: seq<Row>, count: nat, sources: Sources, clock: Clock,
                              payload: Option<string>)
    requires OnlyProjected(first, before, sources) && RefreshedSome(before, now, count, sources, clock, payload)
    ensures OnlyProjected(first, now, sources)
  {
    hide ProjectedUtc, StaleCount;
  }

  lemma SettledIsCurrent(row: Row, sources: Sources, clock: Clock, payload: Option<string>)
    requires !Stale(row, sources, clock.Revision(payload)) && Faithful(row, sources, clock, payload)
    ensures Current(row, sources, clock, payload)
  {
    hide ProjectedUtc, IsTimeOf;
    if Unpublished(row, sources) {
      ProjectedIsTime(clock.Segments(payload), sources[row.source].start + row.ordinal, row.timestamp);
    }
  }

  /** A refresh under any payload keeps what rows of this payload's revision hold. */
  lemma RefreshKeepsFaithful(before: seq<Row>, now: seq<Row>, count: nat, sources: Sources, clock: Clock,
                             refreshed: Option<string>, payload: Option<string>)
    requires RefreshedSome(before, now, count, sources, clock, refreshed)
    requires AllFaithful(before, sources, clock, payload) && Distinguished(clock, payload)
    ensures AllFaithful(now, sources, clock, payload)
  {
    hide ProjectedUtc, StaleCount;
    forall i | 0 <= i < |now|
      ensures Faithful(now[i], sources, clock, payload)
    {
      assert Faithful(before[i], sources, clock, payload);
    }
  }

  lemma {:induction false} NoneStale(table: seq<Row>, sources: Sources, revision: Revision, i: nat)
    requires StaleCount(table, sources, revision) == 0 && i < |table|
    ensures !Stale(table[i], sources, revision)
    decreases |table|
  {
    if i < |table| - 1 {
      NoneStale(table[..|table| - 1], sources, revision, i);
    }
  }

  lemma DoneRefreshing(before: seq<Row>, now: seq<Row>, rows: seq<Row>, sources: Sources, clock: Clock, payload: Option<string>,
                       limit: nat)
    requires Refreshing(before, now, rows, |rows|, sources, clock, payload, limit)
    ensures Keyed(now)
    ensures |rows| == AtMost(limit, StaleCount(before, sources, clock.Revision(payload)))
    ensures RefreshedSome(before, now, |rows|, sources, clock, payload)
    ensures OldestFirst(before, now, sources, clock.Revision(payload))
  {
    hide ProjectedUtc, StaleCount, NoLater, Ascends;
    assert rows[..|rows|] == rows;
    forall i, j | 0 <= i < |before| && 0 <= j < |before| && now[i] != before[i] && now[j] == before[j]
                  && Stale(before[j], sources, clock.Revision(payload))
      ensures NoLater(before[i], before[j])
    {
      assert before[i] in rows && before[j] !in rows;
      assert NoneLater(rows, before[j]);
    }
  }

  /** The stored records with their sources and the clock payload, in one database. */
  class ProjectionStore {
    const clock: Clock
    var table: seq<Row>
    var sources: Sources
    var payload: Option<string>

    constructor (clock: Clock, table: seq<Row>, sources: Sources, payload: Option<string>)
      ensures this.clock == clock && this.table == table && this.sources == sources && this.payload == payload
    {
      this.clock, this.table, this.sources, this.payload := clock, table, sources, payload;
    }

    method ProjectUtcTimestamp(segments: seq<ClockSegment>, sequence: nat, timestamp: nat) returns (utc: Option<nat>)
      ensures utc == ProjectedUtc(segments, sequence, timestamp)
      ensures IsTimeOf(utc, segments, sequence, timestamp)
    {
      ProjectedIsTime(segments, sequence, timestamp);
      var projected := UtcFor(segments, sequence, timestamp);
      utc := Normalized(projected);
    }

    /** `refresh_utc_projection`: `snapshot` is the payload read before the transaction, `payload` the one inside it. */
    method Refresh(snapshot: Option<string>, limit: nat) returns (count: nat)
      requires Keyed(table) && limit > 0
      modifies `table
      ensures Keyed(table)
      ensures payload != snapshot ==> table == old(table) && count == 0
      ensures payload == snapshot ==>
        && count == (if limit <= StaleCount(old(table), sources, clock.Revision(payload)) then limit
                     else StaleCount(old(table), sources, clock.Revision(payload)))
        && OldestFirst(old(table), table, sources, clock.Revision(payload))
        && RefreshedSome(old(table), table, count, sources, clock, payload)
    {
      if payload != snapshot {
        return 0;
      }
      hide StaleCount, Stale, ProjectedUtc, Refreshing, Selection, RefreshedSome, Keyed, IndexOf;
      var revision, segments := clock.Revision(payload), clock.Segments(payload);
      var rows := StaleProjectionRows(table, sources, revision, limit);
      ghost var before := table;
      NothingRefreshed(before, rows, sources, clock, payload, limit);
      for k := 0 to |rows|
        invariant Refreshing(before, table, rows, k, sources, clock, payload, limit)
      {
        var row := rows[k];
        RowIsStale(before, table, rows, k, sources, clock, payload, limit);
        var utc := ProjectUtcTimestamp(segments, sources[row.source].start + row.ordinal, row.timestamp);
        var i := IndexOf(table, row);
        RefreshNext(before, table, rows, k, i, sources, clock, payload, limit);
        table := table[i := row.(utc := utc, revision := Some(revision))];
      }
      DoneRefreshing(before, table, rows, sources, clock, payload, limit);
      count := |rows|;
    }

    /** Calls on successive idle turns, with the payload at rest, until one finds nothing stale. */
    method RefreshUntilCurrent(limit: nat)
      requires Keyed(table) && limit > 0
      requires AllFaithful(table, sources, clock, payload) && Distinguished(clock, payload)
      modifies `table
      ensures Keyed(table) && AllFaithful(table, sources, clock, payload)
      ensures forall i :: 0 <= i < |table| ==> Current(table[i], sources, clock, payload)
      ensures OnlyProjected(old(table), table, sources)
    {
      hide Keyed, Current, RefreshedSome, StaleCount, OldestFirst, OnlyProjected;
      Unprojected(table, sources);
      while true
        invariant Keyed(table) && AllFaithful(table, sources, clock, payload)
        invariant OnlyProjected(old(table), table, sources)
        decreases StaleCount(table, sources, clock.Revision(payload))
      {
        ghost var before := table;
        var count := Refresh(payload, limit);
        RefreshKeepsFaithful(before, table, count, sources, clock, payload, payload);
        RefreshedOnlyProjects(old(table), before, table, count, sources, clock, payload);
        RefreshedCounts(before, table, count, sources, clock, payload);
        if count == 0 {
          break;
        }
      }
      forall i | 0 <= i < |table|
        ensures Current(table[i], sources, clock, payload)
      {
        NoneStale(table, sources, clock.Revision(payload), i);
        SettledIsCurrent(table[i], sources, clock, payload);
      }
    }
  }

  lemma Unprojected(table: seq<Row>, sources: Sources)
    ensures OnlyProjected(table, table, sources)
  {}

  lemma RefreshedCounts(before: seq<Row>, now: seq<Row>, count: nat, sources: Sources, clock: Clock, payload: Option<string>)
    requires RefreshedSome(before, now, count, sources, clock, payload)
    ensures StaleCount(now, sources, clock.Revision(payload)) + count == StaleCount(before, sources, clock.Revision(payload))
  {}

  /** After `k` of the selected rows have been refreshed. */
  ghost predicate Refreshing(before: seq<Row>, now: seq<Row>, rows: seq<Row>, k: nat, sources: Sources, clock: Clock,
                             payload: Option<string>, limit: nat)
    requires k <= |rows|
  {
    && Keyed(before)
    && Keyed(now)
    && Selection(rows, before, sources, clock.Revision(payload), limit)
    && Partly(before, now, rows, k, sources, clock, payload)
    && StaleCount(now, sources, clock.Revision(payload)) == StaleCount(before, sources, clock.Revision(payload)) - k
  }

  lemma NothingRefreshed(table: seq<Row>, rows: seq<Row>, sources: Sources, clock: Clock, payload: Option<string>, limit: nat)
    requires Keyed(table) && Selection(rows, table, sources, clock.Revision(payload), limit)
    ensures Refreshing(table, table, rows, 0, sources, clock, payload, limit)
  {
    hide ProjectedUtc, StaleCount;
  }

  /** Within the transaction the row is still there, stale and unpublished: each update meets exactly one row. */
  lemma RowIsStale(before: seq<Row>, now: seq<Row>, rows: seq<Row>, k: nat, sources: Sources, clock: Clock,
                   payload: Option<string>, limit: nat)
    requires k < |rows| && Refreshing(before, now, rows, k, sources, clock, payload, limit)
    ensures rows[k].source in sources && rows[k] in now && Stale(rows[k], sources, clock.Revision(payload))
  {
    hide ProjectedUtc, StaleCount;
    NotYetRefreshed(before, now, rows, k, sources, clock, payload);
  }

  lemma RefreshNext(before: seq<Row>, now: seq<Row>, rows: seq<Row>, k: nat, i: nat, sources: Sources, clock: Clock,
                    payload: Option<string>, limit: nat)
    requires k < |rows| && Refreshing(before, now, rows, k, sources, clock, payload, limit)
    requires rows[k] in now && rows[k].source in sources && Stale(rows[k], sources, clock.Revision(payload))
    requires i < |now| && now[i].source == rows[k].source && now[i].ordinal == rows[k].ordinal
    ensures Refreshing(before, now[i := Refreshed(rows[k], sources, clock, payload)], rows, k + 1, sources, clock, payload, limit)
  {
    hide ProjectedUtc, StaleCount, Partly, Keyed;
    var next := now[i := Refreshed(rows[k], sources, clock, payload)];
    KeyFindsRow(now, i, rows[k]);
    PartlyNext(before, now, rows, k, i, sources, clock, payload);
    PartlyKeyed(before, next, rows, k + 1, sources, clock, payload);
    UpdateCounts(now, i, Refreshed(rows[k], sources, clock, payload), sources, clock.Revision(payload));
  }
}
