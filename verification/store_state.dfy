/** The state of the store as a value, and what each guarded operation does to it. */
module StoreState {
  import Sets
  import opened Options
  import opened Tables

  datatype SqliteCode = IoErr | Full | Corrupt | NotADatabase | ReadOnly | CantOpen | OtherCode

  datatype Error =
    | NotReady | NoReserve | FreeDiskLow | WalHigh
    | Closed | DatabaseMismatch | SpanConflict | InvalidMetric
    | Canceled | DeadlineExceeded
    | Sqlite(code: SqliteCode)
    | CountFailed(signal: nat, rows: nat)
    | CheckpointBusy | NothingToEvict | PressurePersists

  /** What a call into the database can answer. */
  type Failure = e: Error | e.Canceled? || e.DeadlineExceeded? || e.Sqlite? witness Canceled

  predicate IsContextError(e: Error) {
    e.Canceled? || e.DeadlineExceeded?
  }

  /** The SQLite failures that stop admission. */
  predicate IsStorageFailure(e: Error) {
    e.Sqlite? && !e.code.OtherCode?
  }

  /** One table with its lifetime counters. */
  datatype Signal = Signal(rows: Table, committed: nat, deleted: nat)

  const LOGS: nat := 0
  const SPANS: nat := 1
  const METRICS: nat := 2

  type SignalId = k: nat | k <= 2

  datatype State = State(open: bool, ready: bool, closing: bool, lastError: Option<Error>,
                         logs: Signal, spans: Signal, metrics: Signal)
  {
    function Of(signal: nat): Signal {
      if signal == LOGS then logs else if signal == SPANS then spans else metrics
    }

    function With(signal: nat, x: Signal): State {
      if signal == LOGS then this.(logs := x) else if signal == SPANS then this.(spans := x) else this.(metrics := x)
    }

    ghost predicate UniqueRows() {
      Unique(logs.rows) && Unique(spans.rows) && Unique(metrics.rows)
    }

    function Entries(): set<Entry> {
      (set r | r in logs.rows :: Entry(LOGS, r)) +
      (set r | r in spans.rows :: Entry(SPANS, r)) +
      (set r | r in metrics.rows :: Entry(METRICS, r))
    }
  }

  /** Rows at start, as long as every deletion has been counted. */
  function Balance(x: Signal): int {
    |x.rows| + x.deleted - x.committed
  }

  // ----- Capacity -----

  const MAIN_HIGH_WATER: int := 0x8000_0000
  const ACTIVE_HARD_LIMIT: int := 0xc000_0000
  const REQUEST_RESERVE: int := 0x400_0000
  const FREE_DISK_FLOOR: int := 0x1_4000_0000
  const WAL_NOT_READY: int := 0x1000_0000

  datatype Disk = Disk(databaseBytes: int, activeBytes: int, freeBytes: int, walBytes: int)

  predicate Pressure(d: Disk) {
    || d.databaseBytes >= MAIN_HIGH_WATER
    || d.activeBytes + REQUEST_RESERVE >= ACTIVE_HARD_LIMIT
    || d.freeBytes < FREE_DISK_FLOOR + REQUEST_RESERVE
  }

  /** Whether the store admits a batch once the caller holds the writer. */
  function AdmissionError(s: State, d: Disk): Option<Error> {
    if !s.open || !s.ready || s.closing then Some(NotReady)
    else if d.activeBytes + REQUEST_RESERVE >= ACTIVE_HARD_LIMIT then Some(NoReserve)
    else if d.freeBytes < FREE_DISK_FLOOR + REQUEST_RESERVE then Some(FreeDiskLow)
    else if d.walBytes >= WAL_NOT_READY then Some(WalHigh)
    else None
  }

  /** The readiness reported outside the writer. */
  predicate ReportedReady(s: State, d: Disk) {
    && s.ready && !s.closing
    && d.activeBytes + REQUEST_RESERVE < ACTIVE_HARD_LIMIT
    && d.walBytes < WAL_NOT_READY
    && d.freeBytes >= FREE_DISK_FLOOR + REQUEST_RESERVE
  }

  /** A batch is admitted exactly when the store is open and would be reported ready. */
  lemma AdmittedWhenReported(s: State, d: Disk)
    ensures AdmissionError(s, d).None? <==> s.open && ReportedReady(s, d)
  {
  }

  /** The reserve of one request fits below the hard limit. */
  predicate ReserveFits(d: Disk) {
    d.activeBytes < ACTIVE_HARD_LIMIT - REQUEST_RESERVE
  }

  /** The floor of free space holds once the reserve is used. */
  predicate FloorHolds(d: Disk) {
    d.freeBytes - REQUEST_RESERVE >= FREE_DISK_FLOOR
  }

  /** Each refusal says what is wrong: the state first, then the active bytes, the free bytes and the write-ahead log. */
  lemma AdmissionReason(s: State, d: Disk)
    ensures AdmissionError(s, d) == Some(NotReady) <==> !(s.open && s.ready && !s.closing)
    ensures AdmissionError(s, d) == Some(NoReserve) <==> s.open && s.ready && !s.closing && !ReserveFits(d)
    ensures AdmissionError(s, d) == Some(FreeDiskLow) <==> s.open && s.ready && !s.closing && ReserveFits(d) && !FloorHolds(d)
    ensures AdmissionError(s, d) == Some(WalHigh)
      <==> s.open && s.ready && !s.closing && ReserveFits(d) && FloorHolds(d) && d.walBytes >= WAL_NOT_READY
    ensures AdmissionError(s, d).None? ==> ReserveFits(d) && FloorHolds(d) && d.walBytes < WAL_NOT_READY
  {
  }

  /**
   Maintenance relieves the disk until requests fit again: a disk with a short write-ahead log is without
   pressure exactly when the database is below its mark and an open, ready store admits.
   */
  lemma RelievedAdmits(s: State, d: Disk)
    requires s.open && s.ready && !s.closing && d.walBytes < WAL_NOT_READY
    ensures !Pressure(d) <==> d.databaseBytes < MAIN_HIGH_WATER && AdmissionError(s, d).None?
  {
  }

  function SetOperationalError(s: State, e: Error): State {
    s.(ready := false, lastError := Some(e))
  }

  function RecordWriteError(s: State, e: Error): State {
    if IsStorageFailure(e) then SetOperationalError(s, e) else s
  }

  /** What a finished maintenance run publishes before it releases the writer. */
  function Publish(s: State, result: Option<Error>): State {
    if s.closing then s
    else match result
      case Some(e) => if IsContextError(e) then s else SetOperationalError(s, e)
      case None => s.(ready := true, lastError := None)
  }

  // ----- Transactions -----

  datatype Attempt = Done(rows: Table) | Failed(error: Error)

  /** Answers of the database, one for each call: None is success. */
  type Answers = nat -> Option<Failure>

  /** A clear begins, deletes and counts each of three tables, and commits. */
  const CLEAR_CALLS: nat := 8

  /** The first failure among the first n answers. */
  function FirstFailure(sql: Answers, n: nat): Option<Failure> {
    if n == 0 then None else if FirstFailure(sql, n - 1).Some? then FirstFailure(sql, n - 1) else sql(n - 1)
  }

  const METRIC_TYPES := {"gauge", "sum", "histogram", "exponential_histogram", "summary"}

  predicate ValidMetric(c: Columns) {
    c.MetricColumns? && c.metricType in METRIC_TYPES && c.numberKind in {"", "int", "double"}
  }

  /** The first records of a log batch inside its transaction: begin, prepare, then one insert for each. */
  function LogTransaction(t: Table, records: seq<Record>, sql: Answers): Attempt {
    if records == [] then
      if sql(0).Some? then Failed(sql(0).value) else if sql(1).Some? then Failed(sql(1).value) else Done(t)
    else
      match LogTransaction(t, records[..|records| - 1], sql)
      case Failed(e) => Failed(e)
      case Done(u) =>
        if sql(|records| + 1).Some? then Failed(sql(|records| + 1).value) else Done(InsertOne(u, records[|records| - 1]))
  }

  function MetricTransaction(t: Table, records: seq<Record>, sql: Answers): Attempt {
    if records == [] then
      if sql(0).Some? then Failed(sql(0).value) else if sql(1).Some? then Failed(sql(1).value) else Done(t)
    else
      var record := records[|records| - 1];
      match MetricTransaction(t, records[..|records| - 1], sql)
      case Failed(e) => Failed(e)
      case Done(u) =>
        if !ValidMetric(record.columns) then Failed(InvalidMetric)
        else if sql(|records| + 1).Some? then Failed(sql(|records| + 1).value)
        else Done(InsertOne(u, record))
  }

  /** Spans look up the stored fingerprint first: two calls for each record. */
  function SpanTransaction(t: Table, records: seq<Record>, sql: Answers): Attempt {
    if records == [] then
      if sql(0).Some? then Failed(sql(0).value) else if sql(1).Some? then Failed(sql(1).value) else Done(t)
    else
      var record := records[|records| - 1];
      match SpanTransaction(t, records[..|records| - 1], sql)
      case Failed(e) => Failed(e)
      case Done(u) =>
        if sql(2 * |records|).Some? then Failed(sql(2 * |records|).value)
        else if Conflicts(u, record) then Failed(SpanConflict)
        else if record.identity in Identities(u) then Done(u)
        else if sql(2 * |records| + 1).Some? then Failed(sql(2 * |records| + 1).value)
        else Done(InsertOne(u, record))
  }

  function Transaction(signal: nat, t: Table, records: seq<Record>, sql: Answers): Attempt {
    if signal == LOGS then LogTransaction(t, records, sql)
    else if signal == SPANS then SpanTransaction(t, records, sql)
    else MetricTransaction(t, records, sql)
  }

  /** The call that commits follows the calls for the records. */
  function CommitCall(signal: nat, records: seq<Record>): nat {
    if signal == SPANS then 2 * |records| + 2 else |records| + 2
  }

  function Insertion(signal: nat, t: Table, records: seq<Record>, sql: Answers): Attempt {
    var commit := sql(CommitCall(signal, records));
    match Transaction(signal, t, records, sql)
    case Failed(e) => Failed(e)
    case Done(u) => if commit.Some? then Failed(commit.value) else Done(u)
  }

  ghost predicate Silent(sql: Answers) {
    forall k: nat :: sql(k) == None
  }

  /** A log or metric transaction that ends well has inserted the whole batch. */
  lemma {:induction false} TransactionInsertsAll(signal: nat, t: Table, records: seq<Record>, sql: Answers)
    requires signal != SPANS
    ensures Transaction(signal, t, records, sql).Done? ==>
      && Transaction(signal, t, records, sql) == Done(InsertAll(t, records))
      && (signal != LOGS ==> forall r :: r in records ==> ValidMetric(r.columns))
  {
    if records != [] {
      TransactionInsertsAll(signal, t, records[..|records| - 1], sql);
      assert records == records[..|records| - 1] + [records[|records| - 1]];
    }
  }

  /** A span transaction that ends well has inserted the whole batch; it meets a conflict only if the batch has one. */
  lemma {:induction false} TransactionInsertsSpans(t: Table, records: seq<Record>, sql: Answers)
    ensures SpanTransaction(t, records, sql).Done? ==> InsertSpans(t, records) == Some(SpanTransaction(t, records, sql).rows)
    ensures Silent(sql) ==>
      SpanTransaction(t, records, sql)
        == match InsertSpans(t, records) case Some(u) => Done(u) case None => Failed(SpanConflict)
  {
    if records != [] {
      TransactionInsertsSpans(t, records[..|records| - 1], sql);
    }
  }

  // ----- Counting the rows of an insert -----

  /** The new records among the first n of a batch whose insert was not told how many rows it added. */
  function Overlooked(t: Table, records: seq<Record>, n: nat, counts: Answers): set<nat>
    requires n <= |records|
  {
    set k: nat | k < n && IsNew(t, records, k) && counts(k).Some?
  }

  /**
   The rows a committed batch adds that its counter has not heard of: the loops of logs and metric
   points ignore an error of the count, the loop of spans counts for itself.
   */
  function Missed(signal: nat, t: Table, records: seq<Record>, counts: Answers): nat {
    if signal == SPANS then 0 else |Overlooked(t, records, |records|, counts)|
  }

  /** A batch misses nothing exactly when the insert of each of its new records was counted. */
  lemma MissedRule(signal: SignalId, t: Table, records: seq<Record>, counts: Answers)
    requires signal != SPANS
    ensures Missed(signal, t, records, counts) == 0
      <==> forall k: nat :: k < |records| && IsNew(t, records, k) ==> counts(k).None?
    ensures |InsertAll(t, records)| == |t| + |NewAmong(t, records, |records|)|
    ensures Missed(signal, t, records, counts) <= |NewAmong(t, records, |records|)|
  {
    InsertAllCounts(t, records, |records|);
    assert records[..|records|] == records;
    Sets.SubsetSize(Overlooked(t, records, |records|, counts), NewAmong(t, records, |records|));
    if k: nat :| k < |records| && IsNew(t, records, k) && counts(k).Some? {
      assert k in Overlooked(t, records, |records|, counts);
    }
  }

  /** What a counter adds for a table that grew from t to u, when it has not heard of some of the rows. */
  function Growth(t: Table, u: Table, missed: nat): nat {
    if |u| >= |t| + missed then |u| - |t| - missed else 0
  }

  /** The state and the error after an insert that waited for the writer. */
  function Inserted(s: State, signal: nat, records: seq<Record>, lock: Option<Failure>, disk: Disk, sql: Answers, counts: Answers)
    : (State, Option<Error>)
  {
    if !s.ready then (s, Some(NotReady))
    else if lock.Some? then (s, lock)
    else
      match AdmissionError(s, disk)
      case Some(e) => (s, Some(e))
      case None =>
        var t := s.Of(signal).rows;
        Finished(s, signal, Insertion(signal, t, records, sql), Missed(signal, t, records, counts))
  }

  /** The state and the error after an admitted insert whose transaction ended in one way or the other. */
  function Finished(s: State, signal: nat, attempt: Attempt, missed: nat): (State, Option<Error>) {
    match attempt
    case Failed(e) => (RecordWriteError(s, e), Some(e))
    case Done(u) => (Committed(s, signal, u, missed), None)
  }

  /** The state once a transaction on one signal has committed and its new rows are counted, but for those missed. */
  function Committed(s: State, signal: nat, u: Table, missed: nat): State {
    var x := s.Of(signal);
    s.With(signal, Signal(u, x.committed + Growth(x.rows, u, missed), x.deleted))
  }

  /**
   What every insert keeps: the rows already stored, uniqueness, and the balance of all three
   signals, except for exactly the rows of a committed batch that were not counted.
   */
  lemma InsertKeeps(s: State, signal: SignalId, records: seq<Record>, lock: Option<Failure>, disk: Disk, sql: Answers, counts: Answers)
    requires s.UniqueRows()
    ensures var (s', err) := Inserted(s, signal, records, lock, disk, sql, counts);
      && s'.UniqueRows()
      && (forall k: SignalId :: s.Of(k).rows <= s'.Of(k).rows)
      && (err.Some? ==> forall k: SignalId :: s'.Of(k) == s.Of(k))
      && (err.None? ==> WholeBatch(signal, s.Of(signal).rows, records, s'.Of(signal).rows))
      && (err.None? ==>
            var missed := Missed(signal, s.Of(signal).rows, records, counts);
            forall k: SignalId :: Balance(s'.Of(k)) == Balance(s.Of(k)) + (if k == signal then missed else 0))
  {
    var x := s.Of(signal);
    var a := Insertion(signal, x.rows, records, sql);
    if a.Done? {
      InsertionIsWhole(signal, x.rows, records, sql);
      MissedWithin(signal, x.rows, records, sql, counts);
      CommittedKeeps(s, signal, a.rows, Missed(signal, x.rows, records, counts));
    }
  }

  lemma CommittedKeeps(s: State, signal: SignalId, u: Table, missed: nat)
    requires s.UniqueRows() && Unique(u) && s.Of(signal).rows <= u && |s.Of(signal).rows| + missed <= |u|
    ensures var s' := Committed(s, signal, u, missed);
      && s'.UniqueRows() && s'.Of(signal).rows == u
      && forall k: SignalId ::
           s.Of(k).rows <= s'.Of(k).rows && Balance(s'.Of(k)) == Balance(s.Of(k)) + (if k == signal then missed else 0)
  {
    hide Unique;
    var x := Committed(s, signal, u, missed).Of(signal);
    assert x.rows == u && Balance(x) == Balance(s.Of(signal)) + missed;
  }

  /** A counter cannot miss more rows than the batch added. */
  lemma MissedWithin(signal: SignalId, t: Table, records: seq<Record>, sql: Answers, counts: Answers)
    requires Unique(t) && Insertion(signal, t, records, sql).Done?
    ensures |t| + Missed(signal, t, records, counts) <= |Insertion(signal, t, records, sql).rows|
  {
    hide Overlooked, NewAmong;
    InsertionIsWhole(signal, t, records, sql);
    if signal == SPANS {
      Sets.SubsetSize(t, Insertion(signal, t, records, sql).rows);
    } else {
      MissedRule(signal, t, records, counts);
    }
  }

  /** The whole batch went in: the new records as they are, and for spans without a conflict. */
  ghost predicate WholeBatch(signal: nat, t: Table, records: seq<Record>, u: Table) {
    && Stores(t, records, u)
    && if signal == SPANS then InsertSpans(t, records) == Some(u) else u == InsertAll(t, records)
  }

  lemma InsertionIsWhole(signal: nat, t: Table, records: seq<Record>, sql: Answers)
    requires Unique(t) && Insertion(signal, t, records, sql).Done?
    ensures var u := Insertion(signal, t, records, sql).rows; Unique(u) && t <= u && WholeBatch(signal, t, records, u)
  {
    if signal == SPANS {
      TransactionInsertsSpans(t, records, sql);
      SpanBatchRule(t, records);
      SpansStored(t, records);
    } else {
      TransactionInsertsAll(signal, t, records, sql);
      InsertAllKeeps(t, records);
      InsertAllStores(t, records);
    }
  }

  lemma {:induction false} KnownSpanTransaction(t: Table, records: seq<Record>, sql: Answers)
    requires Unique(t) && RecordPairs(records) <= Pairs(t)
    ensures var a := SpanTransaction(t, records, sql); a == Done(t) || (a.Failed? && a.error != SpanConflict)
  {
    if records != [] {
      var init, last := records[..|records| - 1], records[|records| - 1];
      assert forall r :: r in init ==> r in records && (r.identity, r.fingerprint) in RecordPairs(records);
      assert last in records && (last.identity, last.fingerprint) in RecordPairs(records);
      KnownSpanTransaction(t, init, sql);
      var r :| r in t && r.record.identity == last.identity && r.record.fingerprint == last.fingerprint;
      assert last.identity in Identities(t) && !Conflicts(t, last);
    }
  }

  /** A batch that is stored already: what its transaction can end in. */
  lemma KnownInsertion(signal: SignalId, t: Table, records: seq<Record>, sql: Answers)
    requires Unique(t)
    requires signal != SPANS ==> RecordIdentities(records) <= Identities(t)
    requires signal == SPANS ==> RecordPairs(records) <= Pairs(t)
    ensures var a := Insertion(signal, t, records, sql); a == Done(t) || (a.Failed? && a.error != SpanConflict)
  {
    if signal == SPANS {
      KnownSpanTransaction(t, records, sql);
    } else {
      NeverConflicts(signal, t, records, sql);
      TransactionInsertsAll(signal, t, records, sql);
      KnownBatchChangesNothing(t, records);
    }
  }

  lemma {:induction false} NeverConflicts(signal: SignalId, t: Table, records: seq<Record>, sql: Answers)
    requires signal != SPANS
    ensures var a := Transaction(signal, t, records, sql); a.Failed? ==> a.error != SpanConflict
  {
    if records != [] {
      NeverConflicts(signal, t, records[..|records| - 1], sql);
    }
  }

  /** Inserting a batch that is stored already changes neither tables nor counters, and never conflicts. */
  lemma RepeatedInsert(s: State, signal: SignalId, records: seq<Record>, lock: Option<Failure>, disk: Disk, sql: Answers, counts: Answers)
    requires s.UniqueRows()
    requires signal != SPANS ==> RecordIdentities(records) <= Identities(s.Of(signal).rows)
    requires signal == SPANS ==> RecordPairs(records) <= Pairs(s.Of(signal).rows)
    ensures var (s', err) := Inserted(s, signal, records, lock, disk, sql, counts);
      (forall k: SignalId :: s'.Of(k) == s.Of(k)) && err != Some(SpanConflict)
  {
    hide Missed;
    KnownInsertion(signal, s.Of(signal).rows, records, sql);
  }
}
