/** The telemetry tables as values: inserting, deduplicating and evicting rows. */
module Tables {
  import opened Options
  import opened CanonicalJson

  /** A SHA-256 digest. */
  datatype Hash = Hash(digest: nat)

  /** What a table keeps unique: the fingerprint of a log or metric point, the IDs of a span. */
  datatype Identity = Content(fingerprint: Hash) | SpanIdentity(traceId: string, spanId: string)

  datatype Columns =
    | LogColumns(service: string, time: int, severity: int, severityText: string, ids: seq<string>,
                 requestId: string, productId: string, component: string, op: string, body: Json, payload: Json)
    | SpanColumns(service: string, name: string, parent: string, start: int, end: int,
                  requestId: string, productId: string, payload: Json)
    | MetricColumns(service: string, name: string, metricType: string, numberKind: string,
                    start: int, time: int, numbers: seq<string>, payload: Json)

  datatype Record = Record(identity: Identity, fingerprint: Hash, receivedAt: int, columns: Columns)

  datatype Row = Row(id: int, record: Record)

  type Table = set<Row>

  ghost predicate Unique(t: Table) {
    && (forall r, q :: r in t && q in t && r.id == q.id ==> r == q)
    && (forall r, q :: r in t && q in t && r.record.identity == q.record.identity ==> r == q)
  }

  function Identities(t: Table): set<Identity> {
    set r | r in t :: r.record.identity
  }

  function RecordIdentities(records: seq<Record>): set<Identity> {
    set r | r in records :: r.identity
  }

  // ----- Row ids -----

  lemma MaximumExists(s: set<int>, x: int)
    requires x in s
    ensures exists m :: m in s && forall y :: y in s ==> y <= m
  {
    if y :| y in s && y > x {
      assert s - {x} < s;
      MaximumExists(s - {x}, y);
      var m :| m in s - {x} && forall z :: z in s - {x} ==> z <= m;
      assert forall z :: z in s ==> z == x || z in s - {x};
      assert m in s && forall z :: z in s ==> z <= m;
    }
  }

  function Maximum(s: set<int>, x: int): (m: int)
    requires x in s
    ensures m in s && forall y :: y in s ==> y <= m
  {
    MaximumExists(s, x);
    var m :| m in s && forall y :: y in s ==> y <= m;
    m
  }

  /** One more than the largest row id in use; ids start at 1. */
  function NextId(t: Table): (id: int)
    ensures forall r :: r in t ==> r.id < id
  {
    var ids := {0} + set r | r in t :: r.id;
    assert forall r :: r in t ==> r.id in ids;
    Maximum(ids, 0) + 1
  }

  // ----- Inserting a batch -----

  /** INSERT ... ON CONFLICT DO NOTHING. */
  function InsertOne(t: Table, record: Record): Table {
    if record.identity in Identities(t) then t else t + {Row(NextId(t), record)}
  }

  function InsertAll(t: Table, records: seq<Record>): Table {
    if records == [] then t else InsertOne(InsertAll(t, records[..|records| - 1]), records[|records| - 1])
  }

  lemma InsertOneCounts(t: Table, record: Record)
    ensures t <= InsertOne(t, record)
    ensures |InsertOne(t, record)| == |t| + (if record.identity in Identities(t) then 0 else 1)
  {
    if record.identity !in Identities(t) {
      assert Row(NextId(t), record) !in t;
    }
  }

  lemma InsertOneIdentities(t: Table, record: Record)
    ensures t <= InsertOne(t, record)
    ensures Identities(InsertOne(t, record)) == Identities(t) + {record.identity}
  {
    if record.identity !in Identities(t) {
      var r := Row(NextId(t), record);
      assert record.identity in Identities(t + {r});
      assert forall i :: i in Identities(t) ==> i in Identities(t + {r});
    }
  }

  lemma InsertOneKeeps(t: Table, record: Record)
    requires Unique(t)
    ensures Unique(InsertOne(t, record)) && t <= InsertOne(t, record)
  {
  }

  /** A batch keeps uniqueness, keeps every row, and leaves exactly the identities of table and batch. */
  lemma {:induction false} InsertAllKeeps(t: Table, records: seq<Record>)
    ensures Unique(t) ==> Unique(InsertAll(t, records))
    ensures t <= InsertAll(t, records)
    ensures Identities(InsertAll(t, records)) == Identities(t) + RecordIdentities(records)
  {
    if records != [] {
      var init, last := records[..|records| - 1], records[|records| - 1];
      InsertAllKeeps(t, init);
      InsertOneIdentities(InsertAll(t, init), last);
      if Unique(t) { InsertOneKeeps(InsertAll(t, init), last); }
      LastIdentity(records);
    }
  }

  /** The record at k of a batch is neither stored already nor a repetition within the batch. */
  predicate IsNew(t: Table, records: seq<Record>, k: nat)
    requires k < |records|
  {
    records[k].identity !in Identities(t) && forall j :: 0 <= j < k ==> records[j].identity != records[k].identity
  }

  /** The places of a batch that add a row. */
  function NewAmong(t: Table, records: seq<Record>, n: nat): set<nat>
    requires n <= |records|
  {
    set k: nat | k < n && IsNew(t, records, k)
  }

  lemma NewMeansAbsent(t: Table, records: seq<Record>, k: nat)
    requires k < |records|
    ensures IsNew(t, records, k) <==> records[k].identity !in Identities(InsertAll(t, records[..k]))
  {
    InsertAllKeeps(t, records[..k]);
    assert forall r :: r in records[..k] <==> exists j :: 0 <= j < k && records[j] == r;
  }

  /** The table grows by one row for each new record. */
  lemma {:induction false} InsertAllCounts(t: Table, records: seq<Record>, n: nat)
    requires n <= |records|
    ensures |InsertAll(t, records[..n])| == |t| + |NewAmong(t, records, n)|
  {
    hide IsNew, Identities, NewAmong, InsertOne;
    NewAmongSizes(t, records, n);
    if n > 0 {
      InsertAllCounts(t, records, n - 1);
      NewMeansAbsent(t, records, n - 1);
      assert records[..n][..n - 1] == records[..n - 1];
      InsertOneCounts(InsertAll(t, records[..n - 1]), records[n - 1]);
    }
  }

  lemma NewAmongSizes(t: Table, records: seq<Record>, n: nat)
    requires n <= |records|
    ensures |NewAmong(t, records, 0)| == 0
    ensures n > 0 ==> |NewAmong(t, records, n)| == |NewAmong(t, records, n - 1)| + (if IsNew(t, records, n - 1) then 1 else 0)
  {
    hide IsNew;
    assert NewAmong(t, records, 0) == {};
    if n > 0 {
      assert NewAmong(t, records, n)
        == NewAmong(t, records, n - 1) + (if IsNew(t, records, n - 1) then {n - 1} else {});
    }
  }

  /** The row that a new record has become: the record itself, under an id above those already in use. */
  ghost predicate StoredAs(t: Table, u: Table, record: Record, x: Row) {
    x in u - t && x.record == record && forall r :: r in t ==> r.id < x.id
  }

  /** Each row that came is one of the new records. */
  ghost predicate OnlyNew(t: Table, records: seq<Record>, u: Table) {
    forall x :: x in u - t ==> exists k: nat :: k < |records| && IsNew(t, records, k) && StoredAs(t, u, records[k], x)
  }

  /** Each new record has come. */
  ghost predicate EveryNew(t: Table, records: seq<Record>, u: Table) {
    forall k: nat :: k < |records| && IsNew(t, records, k) ==> exists x :: StoredAs(t, u, records[k], x)
  }

  /** No two rows that came have one identity. */
  ghost predicate OnceEach(t: Table, u: Table) {
    forall x, y :: x in u - t && y in u - t && x.record.identity == y.record.identity ==> x == y
  }

  /** u is t with exactly one row for each new record of the batch, holding that record, and nothing else. */
  ghost predicate Stores(t: Table, records: seq<Record>, u: Table) {
    t <= u && OnlyNew(t, records, u) && EveryNew(t, records, u) && OnceEach(t, u)
  }

  /** A batch stores its new records as they are. */
  lemma {:induction false} InsertAllStores(t: Table, records: seq<Record>)
    ensures Stores(t, records, InsertAll(t, records))
  {
    if records != [] {
      var n := |records| - 1;
      InsertAllStores(t, records[..n]);
      InsertAllKeeps(t, records[..n]);
      NewMeansAbsent(t, records, n);
      StoreOne(t, records, InsertAll(t, records[..n]));
    }
  }

  lemma IsNewInPrefix(t: Table, records: seq<Record>, k: nat)
    requires k < |records| - 1
    ensures IsNew(t, records, k) <==> IsNew(t, records[..|records| - 1], k)
  {
  }

  lemma StoreOne(t: Table, records: seq<Record>, u: Table)
    requires records != [] && Stores(t, records[..|records| - 1], u)
    requires IsNew(t, records, |records| - 1) <==> records[|records| - 1].identity !in Identities(u)
    ensures Stores(t, records, InsertOne(u, records[|records| - 1]))
  {
    hide IsNew, InsertOne, Stores;
    var n := |records| - 1;
    InsertOneAdds(u, records[n]);
    if IsNew(t, records, n) {
      var x :| InsertOne(u, records[n]) == u + {x} && StoredAs(u, u + {x}, records[n], x);
      StoreNew(t, records, u, x);
    } else {
      StoreKnown(t, records, u);
    }
  }

  lemma StoreKnown(t: Table, records: seq<Record>, u: Table)
    requires records != [] && Stores(t, records[..|records| - 1], u) && !IsNew(t, records, |records| - 1)
    ensures Stores(t, records, u)
  {
    hide IsNew, StoredAs, OnceEach;
    forall k: nat | k < |records| - 1 ensures IsNew(t, records, k) <==> IsNew(t, records[..|records| - 1], k) {
      IsNewInPrefix(t, records, k);
    }
  }

  lemma StoreNew(t: Table, records: seq<Record>, u: Table, x: Row)
    requires records != [] && Stores(t, records[..|records| - 1], u) && IsNew(t, records, |records| - 1)
    requires records[|records| - 1].identity !in Identities(u) && StoredAs(u, u + {x}, records[|records| - 1], x)
    ensures Stores(t, records, u + {x})
  {
    hide OnlyNew, EveryNew, OnceEach, IsNew, StoredAs, Identities;
    OnlyNewStill(t, records, u, x);
    EveryNewStill(t, records, u, x);
    OnceEachStill(t, records[|records| - 1], u, x);
  }

  lemma StoredStays(t: Table, u: Table, record: Record, y: Row, x: Row)
    requires StoredAs(t, u, record, y)
    ensures StoredAs(t, u + {x}, record, y)
  {
  }

  lemma OnlyNewStill(t: Table, records: seq<Record>, u: Table, x: Row)
    requires records != [] && OnlyNew(t, records[..|records| - 1], u) && IsNew(t, records, |records| - 1)
    requires t <= u && StoredAs(u, u + {x}, records[|records| - 1], x)
    ensures OnlyNew(t, records, u + {x})
  {
    hide IsNew;
    var n := |records| - 1;
    forall y | y in u + {x} - t ensures exists k: nat :: k < |records| && IsNew(t, records, k) && StoredAs(t, u + {x}, records[k], y) {
      if y == x {
        assert StoredAs(t, u + {x}, records[n], x);
      } else {
        assert y in u - t;
        var k: nat :| k < n && IsNew(t, records[..n], k) && StoredAs(t, u, records[..n][k], y);
        IsNewInPrefix(t, records, k);
        StoredStays(t, u, records[k], y, x);
      }
    }
  }

  lemma EveryNewStill(t: Table, records: seq<Record>, u: Table, x: Row)
    requires records != [] && EveryNew(t, records[..|records| - 1], u)
    requires t <= u && StoredAs(u, u + {x}, records[|records| - 1], x)
    ensures EveryNew(t, records, u + {x})
  {
    hide IsNew;
    var n := |records| - 1;
    forall k: nat | k < |records| && IsNew(t, records, k) ensures exists y :: StoredAs(t, u + {x}, records[k], y) {
      if k < n {
        IsNewInPrefix(t, records, k);
        var y :| StoredAs(t, u, records[..n][k], y);
        StoredStays(t, u, records[k], y, x);
      } else {
        assert StoredAs(t, u + {x}, records[n], x);
      }
    }
  }

  lemma OnceEachStill(t: Table, record: Record, u: Table, x: Row)
    requires OnceEach(t, u) && record.identity !in Identities(u) && StoredAs(u, u + {x}, record, x)
    ensures OnceEach(t, u + {x})
  {
    assert forall y :: y in u ==> y.record.identity in Identities(u);
  }

  /** One insert adds the record itself under the next id, or nothing. */
  lemma InsertOneAdds(t: Table, record: Record)
    ensures var u := InsertOne(t, record);
      && t <= u
      && (record.identity in Identities(t) ==> u == t)
      && (record.identity !in Identities(t) ==> exists x :: u == t + {x} && StoredAs(t, u, record, x))
  {
    if record.identity !in Identities(t) {
      var x := Row(NextId(t), record);
      assert InsertOne(t, record) == t + {x} && StoredAs(t, t + {x}, record, x);
    }
  }

  lemma LastIdentity(records: seq<Record>)
    requires records != []
    ensures RecordIdentities(records) == RecordIdentities(records[..|records| - 1]) + {records[|records| - 1].identity}
  {
    assert records == records[..|records| - 1] + [records[|records| - 1]];
  }

  /** A batch whose identities are all present already changes nothing. */
  lemma {:induction false} KnownBatchChangesNothing(t: Table, records: seq<Record>)
    requires RecordIdentities(records) <= Identities(t)
    ensures InsertAll(t, records) == t
  {
    if records != [] {
      var init, last := records[..|records| - 1], records[|records| - 1];
      assert forall r :: r in init ==> r in records && r.identity in RecordIdentities(records);
      assert last in records && last.identity in RecordIdentities(records);
      KnownBatchChangesNothing(t, init);
    }
  }

  // ----- Inserting spans -----

  type Pair = (Identity, Hash)

  function Pairs(t: Table): set<Pair> {
    set r | r in t :: (r.record.identity, r.record.fingerprint)
  }

  function RecordPairs(records: seq<Record>): set<Pair> {
    set r | r in records :: (r.identity, r.fingerprint)
  }

  /** The pairs are a map: one fingerprint for each identity. */
  predicate Consistent(pairs: set<Pair>) {
    forall p, q :: p in pairs && q in pairs && p.0 == q.0 ==> p == q
  }

  /** A stored span with the same identity and other content refuses the record. */
  predicate Conflicts(t: Table, record: Record) {
    exists r :: r in t && r.record.identity == record.identity && r.record.fingerprint != record.fingerprint
  }

  /** The table after a span batch, or None when a record conflicts. */
  function InsertSpans(t: Table, records: seq<Record>): Option<Table> {
    if records == [] then Some(t)
    else
      match InsertSpans(t, records[..|records| - 1])
      case None => None
      case Some(u) =>
        var record := records[|records| - 1];
        if Conflicts(u, record) then None else Some(InsertOne(u, record))
  }

  lemma InsertOnePairs(t: Table, record: Record)
    requires Unique(t) && !Conflicts(t, record)
    ensures Pairs(InsertOne(t, record)) == Pairs(t) + {(record.identity, record.fingerprint)}
  {
    var p := (record.identity, record.fingerprint);
    if record.identity in Identities(t) {
      var r :| r in t && r.record.identity == record.identity;
      assert r.record.fingerprint == record.fingerprint;
      assert p in Pairs(t);
    } else {
      var r := Row(NextId(t), record);
      assert r in t + {r};
      assert forall q :: q in Pairs(t) ==> q in Pairs(t + {r});
    }
  }

  lemma UniqueIsConsistent(t: Table)
    requires Unique(t)
    ensures Consistent(Pairs(t))
  {
  }

  /**
   A span batch commits exactly when the table and the batch together give each identity a single
   fingerprint; the table then maps exactly those identities to those fingerprints.
   */
  lemma {:induction false} SpanBatchRule(t: Table, records: seq<Record>)
    requires Unique(t)
    ensures InsertSpans(t, records).Some? <==> Consistent(Pairs(t) + RecordPairs(records))
    ensures InsertSpans(t, records).Some? ==>
      var u := InsertSpans(t, records).value;
      Unique(u) && t <= u && Pairs(u) == Pairs(t) + RecordPairs(records)
  {
    if records == [] {
      UniqueIsConsistent(t);
      assert Pairs(t) + RecordPairs([]) == Pairs(t);
    } else {
      var init, last := records[..|records| - 1], records[|records| - 1];
      var p := (last.identity, last.fingerprint);
      SpanBatchRule(t, init);
      assert RecordPairs(records) == RecordPairs(init) + {p} by {
        assert records == init + [last];
      }
      var all, before := Pairs(t) + RecordPairs(records), Pairs(t) + RecordPairs(init);
      assert all == before + {p};
      if InsertSpans(t, init).Some? {
        var u := InsertSpans(t, init).value;
        UniqueIsConsistent(u);
        ConflictMeansInconsistent(u, last);
        if !Conflicts(u, last) {
          InsertOnePairs(u, last);
          InsertOneKeeps(u, last);
        }
      } else {
        assert forall q :: q in before ==> q in all;
      }
    }
  }

  /** A span batch without a conflict inserts what any batch would, so it too stores its new records as they are. */
  lemma {:induction false} SpansStored(t: Table, records: seq<Record>)
    requires InsertSpans(t, records).Some?
    ensures InsertSpans(t, records).value == InsertAll(t, records)
    ensures Stores(t, records, InsertSpans(t, records).value)
  {
    if records != [] {
      SpansStored(t, records[..|records| - 1]);
    }
    InsertAllStores(t, records);
  }

  lemma ConflictMeansInconsistent(u: Table, record: Record)
    requires Unique(u)
    ensures Conflicts(u, record) <==> !Consistent(Pairs(u) + {(record.identity, record.fingerprint)})
  {
    var p := (record.identity, record.fingerprint);
    if Conflicts(u, record) {
      var r :| r in u && r.record.identity == record.identity && r.record.fingerprint != record.fingerprint;
      assert (r.record.identity, r.record.fingerprint) in Pairs(u) + {p};
    }
  }

  /** Permuting a span batch changes neither its outcome nor the map it leaves. */
  lemma SpanOrderIsIrrelevant(t: Table, records: seq<Record>, records': seq<Record>)
    requires Unique(t) && multiset(records) == multiset(records')
    ensures InsertSpans(t, records).Some? <==> InsertSpans(t, records').Some?
    ensures InsertSpans(t, records).Some? ==> Pairs(InsertSpans(t, records).value) == Pairs(InsertSpans(t, records').value)
  {
    assert RecordPairs(records) == RecordPairs(records') by {
      assert forall r :: r in records <==> r in multiset(records);
      assert forall r :: r in records' <==> r in multiset(records');
    }
    SpanBatchRule(t, records);
    SpanBatchRule(t, records');
  }

  /** Running batches one after the other; None once one of them conflicts. */
  function InsertBatches(t: Table, batches: seq<seq<Record>>): Option<Table> {
    if batches == [] then Some(t)
    else
      match InsertBatches(t, batches[..|batches| - 1])
      case None => None
      case Some(u) => InsertSpans(u, batches[|batches| - 1])
  }

  function BatchPairs(batches: seq<seq<Record>>): set<Pair> {
    set b, r | b in batches && r in b :: (r.identity, r.fingerprint)
  }

  lemma {:induction false} BatchesRule(t: Table, batches: seq<seq<Record>>)
    requires Unique(t)
    ensures InsertBatches(t, batches).Some? <==> Consistent(Pairs(t) + BatchPairs(batches))
    ensures InsertBatches(t, batches).Some? ==>
      var u := InsertBatches(t, batches).value;
      Unique(u) && t <= u && Pairs(u) == Pairs(t) + BatchPairs(batches)
  {
    if batches == [] {
      UniqueIsConsistent(t);
      assert Pairs(t) + BatchPairs([]) == Pairs(t);
    } else {
      var init, last := batches[..|batches| - 1], batches[|batches| - 1];
      BatchesRule(t, init);
      assert BatchPairs(batches) == BatchPairs(init) + RecordPairs(last) by {
        assert batches == init + [last];
      }
      var all, before := Pairs(t) + BatchPairs(batches), Pairs(t) + BatchPairs(init);
      assert all == before + RecordPairs(last);
      if InsertBatches(t, init).Some? {
        SpanBatchRule(InsertBatches(t, init).value, last);
      } else {
        assert forall q :: q in before ==> q in all;
      }
    }
  }

  /** Span batches that hold the same records succeed together, and converge to one map, in any order or multiplicity. */
  lemma BatchesConverge(t: Table, batches: seq<seq<Record>>, batches': seq<seq<Record>>)
    requires Unique(t)
    requires forall b :: b in batches <==> b in batches'
    ensures InsertBatches(t, batches).Some? <==> InsertBatches(t, batches').Some?
    ensures InsertBatches(t, batches).Some? ==>
      Pairs(InsertBatches(t, batches).value) == Pairs(InsertBatches(t, batches').value)
  {
    assert BatchPairs(batches) == BatchPairs(batches');
    BatchesRule(t, batches);
    BatchesRule(t, batches');
  }

  /** A span batch whose identities and fingerprints are all present already commits without changing anything. */
  lemma {:induction false} KnownSpansChangeNothing(t: Table, records: seq<Record>)
    requires Unique(t) && RecordPairs(records) <= Pairs(t)
    ensures InsertSpans(t, records) == Some(t)
  {
    if records != [] {
      var init, last := records[..|records| - 1], records[|records| - 1];
      assert forall r :: r in init ==> r in records && (r.identity, r.fingerprint) in RecordPairs(records);
      assert last in records && (last.identity, last.fingerprint) in RecordPairs(records);
      KnownSpansChangeNothing(t, init);
      var r :| r in t && r.record.identity == last.identity && r.record.fingerprint == last.fingerprint;
      assert last.identity in Identities(t);
    }
  }

  // ----- Eviction order -----

  /** A row of one of the three tables: 0 for logs, 1 for spans, 2 for metric points. */
  datatype Entry = Entry(signal: nat, row: Row)

  function Received(e: Entry): int {
    e.row.record.receivedAt
  }

  /** The order of pressure eviction: receipt time, then signal, then row id. */
  predicate Older(a: Entry, b: Entry) {
    || Received(a) < Received(b)
    || (Received(a) == Received(b) && (a.signal < b.signal || (a.signal == b.signal && a.row.id < b.row.id)))
  }

  predicate DistinctIds(entries: set<Entry>) {
    forall a, b :: a in entries && b in entries && a.signal == b.signal && a.row.id == b.row.id ==> a == b
  }

  predicate IsOldest(m: Entry, entries: set<Entry>) {
    m in entries && forall x :: x in entries && x != m ==> Older(m, x)
  }

  lemma OlderIsTransitive(a: Entry, b: Entry, c: Entry)
    requires Older(a, b) && Older(b, c)
    ensures Older(a, c)
  {
  }

  lemma OldestExists(entries: set<Entry>, e: Entry) returns (m: Entry)
    requires DistinctIds(entries) && e in entries
    ensures IsOldest(m, entries)
  {
    if IsOldest(e, entries) {
      m := e;
    } else {
      var y :| y in entries && y != e && !Older(e, y);
      m := OldestExists(entries - {e}, y);
      if m != y { OlderIsTransitive(m, y, e); }
    }
  }

  /** ORDER BY received_at, signal, id LIMIT n: the n oldest entries, oldest first. */
  ghost predicate IsOldestBatch(entries: set<Entry>, n: nat, batch: seq<Entry>) {
    && |batch| == (if n < |entries| then n else |entries|)
    && (forall i, j :: 0 <= i < j < |batch| ==> Older(batch[i], batch[j]))
    && (forall i :: 0 <= i < |batch| ==> batch[i] in entries)
    && (forall i, e :: 0 <= i < |batch| && e in entries && e !in batch ==> Older(batch[i], e))
  }

  method OldestOf(entries: set<Entry>) returns (m: Entry)
    requires DistinctIds(entries) && entries != {}
    ensures IsOldest(m, entries)
  {
    var e :| e in entries;
    ghost var oldest := OldestExists(entries, e);
    m :| m in entries && IsOldest(m, entries);
  }

  method SelectOldest(entries: set<Entry>, n: nat) returns (batch: seq<Entry>)
    requires DistinctIds(entries)
    ensures IsOldestBatch(entries, n, batch)
  {
    batch := [];
    var rest := entries;
    while |batch| < n && rest != {}
      invariant rest <= entries && |batch| + |rest| == |entries| && |batch| <= n
      invariant forall e :: e in entries ==> e in rest || e in batch
      invariant forall i :: 0 <= i < |batch| ==> batch[i] in entries && batch[i] !in rest
      invariant forall i, j :: 0 <= i < j < |batch| ==> Older(batch[i], batch[j])
      invariant forall i, e :: 0 <= i < |batch| && e in rest ==> Older(batch[i], e)
      decreases |rest|
    {
      var m := OldestOf(rest);
      batch := batch + [m];
      rest := rest - {m};
    }
  }
}
