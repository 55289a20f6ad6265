/** Exporting a batch again: the same records, whatever the order of attributes and the values of secrets. */
module Replay {
  import opened Options
  import opened CanonicalJson
  import opened Envelope
  import opened Tables
  import opened StoreState
  import opened Export
  import opened Payloads

  // ----- One identity for what is sent again -----

  /** The digest tells these two payloads apart, if they are different. */
  predicate Separates(digest: Digest, p: Option<Json>, q: Option<Json>) {
    p.Some? && q.Some? && digest(p.value) == digest(q.value) ==> p == q
  }

  /**
   A log sent again has the same fingerprint, although its body column may list its entries in another
   order; and unless the digest collides, a log with the same fingerprint is one sent again.
   */
  lemma ResentLogs(i: Item<LogRecord>, j: Item<LogRecord>, now: int, now': int, digest: Digest)
    requires ProjectLog(i, now, digest).Some? && ProjectLog(j, now', digest).Some?
    ensures var a, b := ProjectLog(i, now, digest).value, ProjectLog(j, now', digest).value;
      && (ResentLog(i, j) ==> a.identity == b.identity && a.fingerprint == b.fingerprint)
      && (Separates(digest, LogPayload(i), LogPayload(j)) ==> (a.identity == b.identity <==> ResentLog(i, j)))
  {
    hide ResentLog, LogPayload;
    LogPayloadRule(i, j);
  }

  predicate SameIds(s: Span, s': Span) {
    s.traceId == s'.traceId && s.spanId == s'.spanId
  }

  /** A span has its IDs for an identity, and a fingerprint that it shares with the spans it is sent again as. */
  lemma ResentSpans(i: Item<Span>, j: Item<Span>, now: int, now': int, digest: Digest)
    requires ProjectSpan(i, now, digest).Some? && ProjectSpan(j, now', digest).Some?
    ensures var a, b := ProjectSpan(i, now, digest).value, ProjectSpan(j, now', digest).value;
      && (a.identity == b.identity <==> SameIds(i.record, j.record))
      && (ResentSpan(i, j) ==> a.fingerprint == b.fingerprint)
      && (SpanShaped(i.record) && SpanShaped(j.record) && Separates(digest, SpanPayload(i), SpanPayload(j)) ==>
            (a.fingerprint == b.fingerprint <==> ResentSpan(i, j)))
  {
    hide ResentSpan, SpanPayload;
    SpanPayloadRule(i, j);
  }

  /** The same for metric points as for logs. */
  lemma ResentPoints(i: Item<Point>, j: Item<Point>, now: int, now': int, digest: Digest)
    requires PlainName(i.record.dataKey)
    requires ProjectPoint(i, now, digest).Some? && ProjectPoint(j, now', digest).Some?
    ensures var a, b := ProjectPoint(i, now, digest).value, ProjectPoint(j, now', digest).value;
      && (ResentPoint(i, j) ==> a.identity == b.identity && a.fingerprint == b.fingerprint)
      && (PointShaped(i.record) && PointShaped(j.record) && Separates(digest, PointPayload(i), PointPayload(j)) ==>
            (a.identity == b.identity <==> ResentPoint(i, j)))
  {
    hide ResentPoint, PointPayload, PointShaped;
    PointPayloadRule(i, j);
  }

  // ----- End to end -----

  /** The second batch asks for the identities, and for spans the fingerprints, of the first. */
  predicate SameKeys(records: seq<Record>, records': seq<Record>) {
    |records| == |records'| && forall k :: 0 <= k < |records| ==>
      records[k].identity == records'[k].identity && records[k].fingerprint == records'[k].fingerprint
  }

  lemma SameKeysSameSets(records: seq<Record>, records': seq<Record>)
    requires SameKeys(records, records')
    ensures RecordIdentities(records') <= RecordIdentities(records)
    ensures RecordPairs(records') <= RecordPairs(records)
  {
    forall r | r in records' ensures r.identity in RecordIdentities(records) && (r.identity, r.fingerprint) in RecordPairs(records) {
      var k :| 0 <= k < |records'| && records'[k] == r;
      assert records[k] in records;
    }
  }

  /**
   A batch stored once and sent again while nothing was deleted changes no table and no counter,
   whatever happens to the second attempt; for spans it never conflicts.
   */
  lemma StoredBatchSentAgain(s: State, signal: SignalId, records: seq<Record>, lock: Option<Failure>, disk: Disk, sql: Answers, counts: Answers,
                             s': State, records': seq<Record>, lock': Option<Failure>, disk': Disk, sql': Answers, counts': Answers)
    requires s.UniqueRows() && s'.UniqueRows() && SameKeys(records, records')
    requires Inserted(s, signal, records, lock, disk, sql, counts).1.None?
    requires Inserted(s, signal, records, lock, disk, sql, counts).0.Of(signal).rows <= s'.Of(signal).rows
    ensures var (s'', err) := Inserted(s', signal, records', lock', disk', sql', counts');
      (forall k: SignalId :: s''.Of(k) == s'.Of(k)) && err != Some(SpanConflict)
  {
    StoreState.InsertKeeps(s, signal, records, lock, disk, sql, counts);
    var t, u := s.Of(signal).rows, Inserted(s, signal, records, lock, disk, sql, counts).0.Of(signal).rows;
    var later := s'.Of(signal).rows;
    SameKeysSameSets(records, records');
    if signal == SPANS {
      SpanBatchRule(t, records);
      assert Pairs(u) <= Pairs(later);
    } else {
      InsertAllKeeps(t, records);
      assert Identities(u) <= Identities(later);
    }
    RepeatedInsert(s', signal, records', lock', disk', sql', counts');
  }

  ghost predicate Projected<R>(items: seq<R>, records: seq<Record>, project: R -> Option<Record>) {
    |records| == |items| && forall k {:trigger items[k]} :: 0 <= k < |items| ==> project(items[k]) == Some(records[k])
  }

  /** Exporting a log batch twice, the second time reordered and with other secrets, stores it once. */
  lemma LogsStoredOnce(items: seq<Item<LogRecord>>, items': seq<Item<LogRecord>>, now: int, now': int, digest: Digest,
                       records: seq<Record>, records': seq<Record>,
                       s: State, lock: Option<Failure>, disk: Disk, sql: Answers, counts: Answers,
                       s': State, lock': Option<Failure>, disk': Disk, sql': Answers, counts': Answers)
    requires |items| == |items'| && forall k :: 0 <= k < |items| ==> ResentLog(items[k], items'[k])
    requires Projected(items, records, i => ProjectLog(i, now, digest)) && Projected(items', records', i => ProjectLog(i, now', digest))
    requires s.UniqueRows() && s'.UniqueRows()
    requires Inserted(s, LOGS, records, lock, disk, sql, counts).1.None?
    requires Inserted(s, LOGS, records, lock, disk, sql, counts).0.logs.rows <= s'.logs.rows
    ensures forall k: SignalId :: Inserted(s', LOGS, records', lock', disk', sql', counts').0.Of(k) == s'.Of(k)
  {
    forall k | 0 <= k < |items| ensures records[k].identity == records'[k].identity && records[k].fingerprint == records'[k].fingerprint {
      ResentLogs(items[k], items'[k], now, now', digest);
    }
    StoredBatchSentAgain(s, LOGS, records, lock, disk, sql, counts, s', records', lock', disk', sql', counts');
  }

  /** The same for spans: the second batch neither conflicts nor changes anything. */
  lemma SpansStoredOnce(items: seq<Item<Span>>, items': seq<Item<Span>>, now: int, now': int, digest: Digest,
                        records: seq<Record>, records': seq<Record>,
                        s: State, lock: Option<Failure>, disk: Disk, sql: Answers, counts: Answers,
                        s': State, lock': Option<Failure>, disk': Disk, sql': Answers, counts': Answers)
    requires |items| == |items'| && forall k :: 0 <= k < |items| ==>
      ResentSpan(items[k], items'[k]) && SameIds(items[k].record, items'[k].record)
    requires Projected(items, records, i => ProjectSpan(i, now, digest)) && Projected(items', records', i => ProjectSpan(i, now', digest))
    requires s.UniqueRows() && s'.UniqueRows()
    requires Inserted(s, SPANS, records, lock, disk, sql, counts).1.None?
    requires Inserted(s, SPANS, records, lock, disk, sql, counts).0.spans.rows <= s'.spans.rows
    ensures var (s'', err) := Inserted(s', SPANS, records', lock', disk', sql', counts');
      (forall k: SignalId :: s''.Of(k) == s'.Of(k)) && err != Some(SpanConflict)
  {
    forall k | 0 <= k < |items| ensures records[k].identity == records'[k].identity && records[k].fingerprint == records'[k].fingerprint {
      ResentSpans(items[k], items'[k], now, now', digest);
    }
    StoredBatchSentAgain(s, SPANS, records, lock, disk, sql, counts, s', records', lock', disk', sql', counts');
  }

  /** The same for metric points. */
  lemma PointsStoredOnce(items: seq<Item<Point>>, items': seq<Item<Point>>, now: int, now': int, digest: Digest,
                         records: seq<Record>, records': seq<Record>,
                         s: State, lock: Option<Failure>, disk: Disk, sql: Answers, counts: Answers,
                         s': State, lock': Option<Failure>, disk': Disk, sql': Answers, counts': Answers)
    requires |items| == |items'| && forall k :: 0 <= k < |items| ==> PlainName(items[k].record.dataKey) && ResentPoint(items[k], items'[k])
    requires Projected(items, records, i => ProjectPoint(i, now, digest)) && Projected(items', records', i => ProjectPoint(i, now', digest))
    requires s.UniqueRows() && s'.UniqueRows()
    requires Inserted(s, METRICS, records, lock, disk, sql, counts).1.None?
    requires Inserted(s, METRICS, records, lock, disk, sql, counts).0.metrics.rows <= s'.metrics.rows
    ensures forall k: SignalId :: Inserted(s', METRICS, records', lock', disk', sql', counts').0.Of(k) == s'.Of(k)
  {
    forall k | 0 <= k < |items| ensures records[k].identity == records'[k].identity && records[k].fingerprint == records'[k].fingerprint {
      ResentPoints(items[k], items'[k], now, now', digest);
    }
    StoredBatchSentAgain(s, METRICS, records, lock, disk, sql, counts, s', records', lock', disk', sql', counts');
  }
}
