/** Paged authentication of stored rows against a source's checkpoint. */
module Authentication {
  import opened Bytes
  import opened CaptureDrain
  import opened CaptureRecords

  /** A row as the database holds it, before anything is known of it. */
  datatype StoredRow = StoredRow(ordinal: int, timestamp: int, payload: bytes)
  {
    function Raw(): bytes
      requires 0 <= timestamp
    {
      BigEndian(timestamp, 4) + payload
    }

    /** `_authenticated_record_bytes` raises unless this holds. */
    predicate Expected(position: nat) {
      && 0 <= ordinal <= UINT32_MAX
      && ordinal == position
      && 0 <= timestamp <= UINT32_MAX
      && |payload| == AUDIO_PAYLOAD_SIZE
    }
  }

  /** The primary key orders the rows of one source. */
  predicate Keyed(table: seq<StoredRow>) {
    forall i, j :: 0 <= i < j < |table| ==> table[i].ordinal < table[j].ordinal
  }

  /** Where the rows with an ordinal above `after` begin. */
  function FirstAbove(table: seq<StoredRow>, after: int): (k: nat)
    requires Keyed(table)
    ensures k <= |table|
    ensures forall i :: 0 <= i < k ==> table[i].ordinal <= after
    ensures forall i :: k <= i < |table| ==> table[i].ordinal > after
    decreases |table|
  {
    if table == [] || table[|table| - 1].ordinal <= after then |table|
    else FirstAbove(table[..|table| - 1], after)
  }

  /** `WHERE ordinal > after ORDER BY ordinal LIMIT limit`. */
  function Page(table: seq<StoredRow>, after: int, limit: nat): (page: seq<StoredRow>)
    requires Keyed(table)
  {
    var k := FirstAbove(table, after);
    table[k..Min(k + limit, |table|)]
  }

  /** The rows the pages can reach. */
  function Reachable(table: seq<StoredRow>): seq<StoredRow>
    requires Keyed(table)
  {
    table[FirstAbove(table, -1)..]
  }

  predicate AllExpected(rows: seq<StoredRow>) {
    forall i :: 0 <= i < |rows| ==> rows[i].Expected(i)
  }

  function RawRows(rows: seq<StoredRow>): bytes
    requires forall i :: 0 <= i < |rows| ==> 0 <= rows[i].timestamp
    decreases |rows|
  {
    if rows == [] then [] else RawRows(rows[..|rows| - 1]) + rows[|rows| - 1].Raw()
  }

  /** The stored rows are exactly the checkpoint's, in order, well formed, and with its digest. */
  predicate Authentic(hash: bytes -> Sha256, table: seq<StoredRow>, count: nat, digest: Sha256)
    requires Keyed(table)
  {
    var rows := Reachable(table);
    && |rows| == count
    && AllExpected(rows)
    && hash(RawRows(rows)) == digest
  }

  datatype Fault = RowFault(position: nat) | CountMismatch | DigestMismatch

  /** Once the first `n` reachable rows are as expected, the next page starts right behind them. */
  lemma NextPage(table: seq<StoredRow>, n: nat, limit: nat)
    requires Keyed(table) && n <= |Reachable(table)| && AllExpected(Reachable(table)[..n])
    ensures Page(table, n - 1, limit) == Reachable(table)[n..Min(n + limit, |Reachable(table)|)]
  {
    var rows, k := Reachable(table), FirstAbove(table, -1);
    forall i | 0 <= i < n
      ensures rows[i].ordinal == i
    {
      assert rows[..n][i].Expected(i);
    }
    forall i | k <= i < k + n
      ensures table[i].ordinal == i - k
    {
      assert rows[i - k] == table[i];
    }
    if 0 < n && k + n < |table| {
      assert table[k + n - 1].ordinal < table[k + n].ordinal;
    }
    assert FirstAbove(table, n - 1) == k + n;
    SliceOfSuffix(table, k, n, Min(n + limit, |rows|));
  }

  lemma SliceOfSuffix<T>(s: seq<T>, k: nat, from: nat, to: nat)
    requires k <= |s| && from <= to <= |s| - k
    ensures s[k + from..k + to] == s[k..][from..to]
  {}

  lemma SliceAt<T>(s: seq<T>, from: nat, to: nat, i: nat)
    requires from <= to <= |s| && i < to - from
    ensures s[from..to][i] == s[from + i]
  {}

  lemma ExpectedGrows(rows: seq<StoredRow>, n: nat)
    requires n < |rows| && AllExpected(rows[..n])
    ensures AllExpected(rows[..n + 1]) <==> rows[n].Expected(n)
    ensures rows[n].Expected(n) ==> RawRows(rows[..n + 1]) == RawRows(rows[..n]) + rows[n].Raw()
  {
    var next := rows[..n + 1];
    assert next[..n] == rows[..n] && next[n] == rows[n];
    assert forall i :: 0 <= i < n ==> next[i] == rows[..n][i];
  }

  lemma NothingExpected(rows: seq<StoredRow>)
    ensures AllExpected(rows[..0]) && RawRows(rows[..0]) == []
  {}

  /** `_scan_authenticated_records`: `absorbed` is what the hash state has been fed. */
  method Scan(table: seq<StoredRow>, limit: nat) returns (count: nat, absorbed: bytes, fault: Option<Fault>)
    requires Keyed(table) && limit > 0
    ensures var rows := Reachable(table);
      && count <= |rows|
      && AllExpected(rows[..count])
      && absorbed == RawRows(rows[..count])
      && (fault.None? ==> count == |rows|)
      && (fault.Some? ==> fault == Some(RowFault(count)) && count < |rows| && !rows[count].Expected(count))
  {
    hide Keyed, FirstAbove, Reachable, Page, RawRows;
    ghost var rows := Reachable(table);
    NothingExpected(rows);
    count, absorbed := 0, [];
    while true
      invariant count <= |rows| && AllExpected(rows[..count]) && absorbed == RawRows(rows[..count])
      decreases |rows| - count
    {
      NextPage(table, count, limit);
      var page := Page(table, count - 1, limit);
      if page == [] {
        return count, absorbed, None;
      }
      ghost var start := count;
      var i := 0;
      while i < |page|
        invariant 0 <= i <= |page| && count == start + i
        invariant AllExpected(rows[..count]) && absorbed == RawRows(rows[..count])
      {
        SliceAt(rows, start, Min(start + limit, |rows|), i);
        ExpectedGrows(rows, count);
        if !page[i].Expected(count) {
          return count, absorbed, Some(RowFault(count));
        }
        absorbed := absorbed + page[i].Raw();
        count, i := count + 1, i + 1;
      }
    }
  }

  /** Row `p` is the first that is not as expected. */
  predicate FirstFault(rows: seq<StoredRow>, p: nat) {
    p < |rows| && !rows[p].Expected(p) && AllExpected(rows[..p])
  }

  /** `authenticate_capture_source`: the verdict never depends on the page limit. */
  method Authenticate(hash: bytes -> Sha256, table: seq<StoredRow>, committedCount: nat, committedDigest: Sha256, limit: nat)
    returns (fault: Option<Fault>)
    requires Keyed(table) && limit > 0
    ensures fault.None? <==> Authentic(hash, table, committedCount, committedDigest)
    ensures fault == Some(CountMismatch) <==> AllExpected(Reachable(table)) && |Reachable(table)| != committedCount
    ensures (exists p :: fault == Some(RowFault(p))) <==> !AllExpected(Reachable(table))
    ensures forall p :: fault == Some(RowFault(p)) ==> FirstFault(Reachable(table), p)
  {
    var count, absorbed, found := Scan(table, limit);
    ghost var rows := Reachable(table);
    if found.Some? {
      return found;
    }
    assert rows[..count] == rows;
    if count != committedCount {
      return Some(CountMismatch);
    }
    if hash(absorbed) != committedDigest {
      return Some(DigestMismatch);
    }
    return None;
  }

  // ----- sound sources

  /** The stored rows of a sound source. */
  function Table(records: seq<Record>): (table: seq<StoredRow>)
    ensures |table| == |records| && Keyed(table)
  {
    seq(|records|, i requires 0 <= i < |records| => StoredRow(i, records[i].timestamp, records[i].payload))
  }

  lemma TableReachable(records: seq<Record>)
    requires |records| <= UINT32_MAX
    ensures Reachable(Table(records)) == Table(records) && AllExpected(Table(records))
  {
    var table := Table(records);
    assert records != [] ==> table[0].ordinal == 0;
    assert FirstAbove(table, -1) == 0;
  }

  lemma {:induction false} TableRaws(records: seq<Record>)
    ensures RawRows(Table(records)) == Raws(records)
    decreases |records|
  {
    if records != [] {
      var n := |records| - 1;
      TableRaws(records[..n]);
      assert Table(records)[..n] == Table(records[..n]);
      assert Table(records)[n].Raw() == records[n].RawBytes();
    }
  }

  /** Every reachable source authenticates. */
  lemma SoundIsAuthentic(hash: bytes -> Sha256, d: Durable)
    requires Sound(hash, d)
    ensures Authentic(hash, Table(d.rows), d.source.count, d.source.digest)
  {
    TableReachable(d.rows);
    TableRaws(d.rows);
  }

  /** Behind `k` rows no page reaches, the table holds exactly these records, numbered from zero. */
  ghost predicate Holds(table: seq<StoredRow>, k: nat, records: seq<Record>) {
    && k + |records| == |table|
    && (k > 0 ==> table[k - 1].ordinal < 0)
    && forall i :: 0 <= i < |records| ==> table[k + i] == StoredRow(i, records[i].timestamp, records[i].payload)
  }

  lemma HoldsReaches(table: seq<StoredRow>, k: nat, records: seq<Record>)
    requires Keyed(table) && Holds(table, k, records)
    ensures Reachable(table) == Table(records)
  {
    if records != [] {
      assert table[k + 0] == StoredRow(0, records[0].timestamp, records[0].payload);
    }
    assert FirstAbove(table, -1) == k;
  }

  lemma ExpectedHolds(table: seq<StoredRow>, k: nat) returns (records: seq<Record>)
    requires Keyed(table) && k == FirstAbove(table, -1) && AllExpected(Reachable(table))
    ensures Holds(table, k, records) && |records| == |Reachable(table)| <= 0x1_0000_0000
  {
    var rows := Reachable(table);
    forall i | 0 <= i < |rows|
      ensures rows[i].Expected(i) && RecordData(rows[i].timestamp, rows[i].payload).WellFormed()
    {
      assert rows[i].Expected(i);
    }
    records := seq(|rows|, i requires 0 <= i < |rows| => RecordData(rows[i].timestamp, rows[i].payload));
    assert rows != [] ==> rows[|rows| - 1].Expected(|rows| - 1);
    forall i | 0 <= i < |records|
      ensures table[k + i] == StoredRow(i, records[i].timestamp, records[i].payload)
    {
      assert table[k + i] == rows[i];
    }
  }

  /** A table authenticates exactly if the rows the pages reach are well-formed records, all of them, with the digest. */
  lemma AuthenticExactly(hash: bytes -> Sha256, table: seq<StoredRow>, count: nat, digest: Sha256)
    requires Keyed(table)
    ensures Authentic(hash, table, count, digest) <==>
      count <= 0x1_0000_0000
      && exists k, records :: Holds(table, k, records) && |records| == count && hash(Raws(records)) == digest
  {
    hide Raws, RawRows;
    if Authentic(hash, table, count, digest) {
      var k := FirstAbove(table, -1);
      var records := ExpectedHolds(table, k);
      HoldsReaches(table, k, records);
      TableRaws(records);
    }
    if count <= 0x1_0000_0000 {
      if k, records :| Holds(table, k, records) && |records| == count && hash(Raws(records)) == digest {
        HoldsReaches(table, k, records);
        TableRaws(records);
        assert AllExpected(Table(records));
      }
    }
  }
}
