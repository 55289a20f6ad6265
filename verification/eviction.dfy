/** What retention and pressure eviction may do to the state of the store. */
module Eviction {
  import opened Options
  import opened Tables
  import opened StoreState

  predicate Expired(r: Row, cutoff: int) {
    r.record.receivedAt < cutoff
  }

  function ExpiredRows(t: Table, cutoff: int): Table {
    set r | r in t && Expired(r, cutoff)
  }

  function ExpiredCount(s: State, cutoff: int): nat {
    |ExpiredRows(s.logs.rows, cutoff)| + |ExpiredRows(s.spans.rows, cutoff)| + |ExpiredRows(s.metrics.rows, cutoff)|
  }

  function Total(s: State): nat {
    |s.logs.rows| + |s.spans.rows| + |s.metrics.rows|
  }

  /** What is left of so many rows once n of them, or all, have gone. */
  function Remaining(total: nat, n: nat): nat {
    if n < total then total - n else 0
  }

  predicate NoneExpired(s: State, cutoff: int) {
    forall e :: e in s.Entries() ==> !Expired(e.row, cutoff)
  }

  /** Rows that a failed answer about the number of deleted rows left out of the counter. */
  function Uncounted(err: Option<Error>, signal: nat): nat {
    if err.Some? && err.value.CountFailed? && err.value.signal == signal then err.value.rows else 0
  }

  predicate SignalEvicts(x: Signal, x': Signal, uncounted: nat) {
    x'.rows <= x.rows && x'.committed == x.committed && Balance(x') == Balance(x) - uncounted
  }

  /** Only rows leave, and every row that leaves is counted, except those named by the error. */
  predicate OnlyEvicts(s: State, s': State, err: Option<Error>) {
    && s' == s.(logs := s'.logs, spans := s'.spans, metrics := s'.metrics)
    && SignalEvicts(s.logs, s'.logs, Uncounted(err, LOGS))
    && SignalEvicts(s.spans, s'.spans, Uncounted(err, SPANS))
    && SignalEvicts(s.metrics, s'.metrics, Uncounted(err, METRICS))
  }

  ghost predicate OnlyExpiredLeft(s: State, s': State, cutoff: int) {
    forall d :: d in s.Entries() && d !in s'.Entries() ==> Expired(d.row, cutoff)
  }

  /** Every row that left is older than every row that stayed. */
  ghost predicate AgePrefix(s: State, s': State) {
    forall d, e :: d in s.Entries() && d !in s'.Entries() && e in s'.Entries() ==> Older(d, e)
  }

  /**
   Either all that left was expired, or nothing expired remains and what left is an age prefix.
   In particular no unexpired row leaves while an expired one stays.
   */
  ghost predicate EvictsByAge(s: State, s': State, cutoff: int) {
    OnlyExpiredLeft(s, s', cutoff) || (NoneExpired(s', cutoff) && AgePrefix(s, s'))
  }

  lemma EntriesOf(s: State)
    ensures forall k: nat, r :: k <= METRICS ==> (r in s.Of(k).rows <==> Entry(k, r) in s.Entries())
    ensures forall e :: e in s.Entries() ==> e.signal <= METRICS && e.row in s.Of(e.signal).rows
  {
  }

  /** A signal after some of its rows have gone, of which the counter has heard of so many. */
  function Shrunk(s: State, signal: nat, gone: Table, counted: nat): State {
    var x := s.Of(signal);
    s.With(signal, Signal(x.rows - gone, x.committed, x.deleted + counted))
  }

  lemma SizeWithout<T>(t: set<T>, gone: set<T>)
    requires gone <= t
    ensures |t - gone| == |t| - |gone|
  {
    assert t == (t - gone) + gone;
  }

  lemma ShrunkOnlyEvicts(s: State, signal: nat, gone: Table, counted: nat, err: Option<Error>)
    requires signal <= METRICS && gone <= s.Of(signal).rows
    requires counted + Uncounted(err, signal) == |gone|
    requires forall k: nat :: k != signal ==> Uncounted(err, k) == 0
    ensures OnlyEvicts(s, Shrunk(s, signal, gone, counted), err)
  {
    SizeWithout(s.Of(signal).rows, gone);
  }

  lemma ShrunkExpiredCount(s: State, signal: nat, gone: Table, counted: nat, cutoff: int)
    requires signal <= METRICS && gone <= ExpiredRows(s.Of(signal).rows, cutoff)
    ensures ExpiredCount(Shrunk(s, signal, gone, counted), cutoff) == ExpiredCount(s, cutoff) - |gone|
  {
    var rows := s.Of(signal).rows;
    assert ExpiredRows(rows - gone, cutoff) == ExpiredRows(rows, cutoff) - gone;
    SizeWithout(ExpiredRows(rows, cutoff), gone);
  }

  lemma ShrunkOnlyExpired(s: State, signal: nat, gone: Table, counted: nat, cutoff: int)
    requires signal <= METRICS && gone <= ExpiredRows(s.Of(signal).rows, cutoff)
    ensures OnlyExpiredLeft(s, Shrunk(s, signal, gone, counted), cutoff)
  {
    var s' := Shrunk(s, signal, gone, counted);
    EntriesOf(s);
    EntriesOf(s');
    forall d | d in s.Entries() && d !in s'.Entries() ensures Expired(d.row, cutoff) {
      assert d.row in s.Of(d.signal).rows && d.row !in s'.Of(d.signal).rows;
    }
  }

  /** Deleting expired rows of one signal. */
  lemma DrainStep(s: State, signal: nat, gone: Table, counted: nat, err: Option<Error>, cutoff: int)
    requires signal <= METRICS && gone <= ExpiredRows(s.Of(signal).rows, cutoff)
    requires counted + Uncounted(err, signal) == |gone|
    requires forall k: nat :: k != signal ==> Uncounted(err, k) == 0
    ensures var s' := Shrunk(s, signal, gone, counted);
      && OnlyEvicts(s, s', err) && OnlyExpiredLeft(s, s', cutoff)
      && ExpiredCount(s', cutoff) == ExpiredCount(s, cutoff) - |gone|
  {
    ShrunkOnlyEvicts(s, signal, gone, counted, err);
    ShrunkExpiredCount(s, signal, gone, counted, cutoff);
    ShrunkOnlyExpired(s, signal, gone, counted, cutoff);
  }

  lemma EvictsTransitively(s: State, s1: State, s2: State, err: Option<Error>)
    requires OnlyEvicts(s, s1, None) && OnlyEvicts(s1, s2, err)
    ensures OnlyEvicts(s, s2, err)
  {
  }

  lemma DrainTransitively(s: State, s1: State, s2: State, cutoff: int)
    requires OnlyExpiredLeft(s, s1, cutoff) && OnlyExpiredLeft(s1, s2, cutoff)
    ensures OnlyExpiredLeft(s, s2, cutoff)
  {
  }

  lemma PrefixTransitively(s: State, s1: State, s2: State)
    requires AgePrefix(s, s1) && AgePrefix(s1, s2) && OnlyEvicts(s1, s2, None)
    ensures AgePrefix(s, s2)
  {
    EntriesOf(s1);
    EntriesOf(s2);
    forall e | e in s2.Entries() ensures e in s1.Entries() {
      assert e.row in s2.Of(e.signal).rows;
    }
  }

  /** A completed drain followed by pressure eviction removes an age prefix of the original rows. */
  lemma DrainThenPressure(s: State, s1: State, s2: State, cutoff: int)
    requires OnlyExpiredLeft(s, s1, cutoff) && NoneExpired(s1, cutoff)
    requires AgePrefix(s1, s2) && OnlyEvicts(s1, s2, None)
    ensures NoneExpired(s2, cutoff) && AgePrefix(s, s2)
  {
    EntriesOf(s1);
    EntriesOf(s2);
    forall e | e in s2.Entries() ensures e in s1.Entries() {
      assert e.row in s2.Of(e.signal).rows;
    }
  }

  lemma ExpiredPart(t: Table, t': Table, cutoff: int)
    requires t' <= t && t - t' <= ExpiredRows(t, cutoff)
    ensures |t| <= |t'| + |ExpiredRows(t, cutoff)|
    ensures ExpiredRows(t', cutoff) == {} ==> |t| == |t'| + |ExpiredRows(t, cutoff)|
  {
    SizeWithout(t, t - t');
    assert t - (t - t') == t';
    SizeWithout(ExpiredRows(t, cutoff), t - t');
    if ExpiredRows(t', cutoff) == {} {
      forall r | r in ExpiredRows(t, cutoff) ensures r in t - t' {
        assert r in t' ==> r in ExpiredRows(t', cutoff);
      }
      assert t - t' == ExpiredRows(t, cutoff);
    }
  }

  /** A drain removes no more rows than were expired, and all of those once it is complete. */
  lemma DrainedTotal(s: State, s': State, err: Option<Error>, cutoff: int)
    requires OnlyEvicts(s, s', err) && OnlyExpiredLeft(s, s', cutoff)
    ensures Total(s) <= Total(s') + ExpiredCount(s, cutoff)
    ensures NoneExpired(s', cutoff) ==> Total(s) == Total(s') + ExpiredCount(s, cutoff)
  {
    EntriesOf(s);
    EntriesOf(s');
    forall k: SignalId ensures s.Of(k).rows - s'.Of(k).rows <= ExpiredRows(s.Of(k).rows, cutoff) {
      forall r | r in s.Of(k).rows - s'.Of(k).rows ensures Expired(r, cutoff) {
        assert Entry(k, r) in s.Entries() && Entry(k, r) !in s'.Entries();
      }
    }
    if NoneExpired(s', cutoff) {
      forall k: SignalId ensures ExpiredRows(s'.Of(k).rows, cutoff) == {} {
        forall r | r in s'.Of(k).rows ensures !Expired(r, cutoff) {
          assert Entry(k, r) in s'.Entries();
        }
      }
    }
    DrainedParts(s, s', cutoff);
  }

  lemma DrainedParts(s: State, s': State, cutoff: int)
    requires forall k: SignalId ::
               s'.Of(k).rows <= s.Of(k).rows && s.Of(k).rows - s'.Of(k).rows <= ExpiredRows(s.Of(k).rows, cutoff)
    ensures Total(s) <= Total(s') + ExpiredCount(s, cutoff)
    ensures (forall k: SignalId :: ExpiredRows(s'.Of(k).rows, cutoff) == {}) ==> Total(s) == Total(s') + ExpiredCount(s, cutoff)
  {
    hide ExpiredRows;
    assert s.Of(LOGS) == s.logs && s.Of(SPANS) == s.spans && s.Of(METRICS) == s.metrics;
    assert s'.Of(LOGS) == s'.logs && s'.Of(SPANS) == s'.spans && s'.Of(METRICS) == s'.metrics;
    ExpiredPart(s.logs.rows, s'.logs.rows, cutoff);
    ExpiredPart(s.spans.rows, s'.spans.rows, cutoff);
    ExpiredPart(s.metrics.rows, s'.metrics.rows, cutoff);
  }

  /** The rows of one signal in a batch of entries. */
  function RowsOf(batch: seq<Entry>, signal: nat): Table {
    set e | e in batch && e.signal == signal :: e.row
  }

  lemma {:induction false} TaggedSize(t: Table, signal: nat)
    ensures |set r | r in t :: Entry(signal, r)| == |t|
  {
    if r :| r in t {
      TaggedSize(t - {r}, signal);
      assert (set q | q in t :: Entry(signal, q)) == (set q | q in t - {r} :: Entry(signal, q)) + {Entry(signal, r)};
    }
  }

  lemma EntriesSize(s: State)
    ensures |s.Entries()| == Total(s)
  {
    var a := set r | r in s.logs.rows :: Entry(LOGS, r);
    var b := set r | r in s.spans.rows :: Entry(SPANS, r);
    var c := set r | r in s.metrics.rows :: Entry(METRICS, r);
    TaggedSize(s.logs.rows, LOGS);
    TaggedSize(s.spans.rows, SPANS);
    TaggedSize(s.metrics.rows, METRICS);
    assert s.Entries() == a + b + c && a !! b && (a + b) !! c;
  }

  /** Exactly the rows of the batch have left. */
  predicate Leaves(s: State, s': State, batch: seq<Entry>) {
    && s'.logs.rows == s.logs.rows - RowsOf(batch, LOGS)
    && s'.spans.rows == s.spans.rows - RowsOf(batch, SPANS)
    && s'.metrics.rows == s.metrics.rows - RowsOf(batch, METRICS)
  }

  lemma LeftInBatch(s: State, s': State, batch: seq<Entry>, d: Entry)
    requires Leaves(s, s', batch) && d in s.Entries() && d !in s'.Entries()
    ensures d in batch
  {
    assert d.row in RowsOf(batch, d.signal);
  }

  lemma StayedOutside(s: State, s': State, batch: seq<Entry>, e: Entry)
    requires Leaves(s, s', batch) && e in s'.Entries()
    ensures e in s.Entries() && e !in batch
  {
    assert e in batch ==> e.row in RowsOf(batch, e.signal);
  }

  /** Removing the oldest entries of all tables. */
  lemma PressureStep(s: State, s': State, n: nat, batch: seq<Entry>)
    requires IsOldestBatch(s.Entries(), n, batch) && Leaves(s, s', batch)
    ensures AgePrefix(s, s')
  {
    forall d, e | d in s.Entries() && d !in s'.Entries() && e in s'.Entries() ensures Older(d, e) {
      LeftInBatch(s, s', batch, d);
      StayedOutside(s, s', batch, e);
      var i :| 0 <= i < |batch| && batch[i] == d;
      assert Older(batch[i], e);
    }
  }

  lemma DistinctEntries(s: State)
    requires s.UniqueRows()
    ensures DistinctIds(s.Entries())
    ensures forall k: nat, cutoff: int :: DistinctIds(ExpiredEntries(s, k, cutoff))
  {
  }

  function ExpiredEntries(s: State, signal: nat, cutoff: int): set<Entry> {
    set r | r in ExpiredRows(s.Of(signal).rows, cutoff) :: Entry(signal, r)
  }

  lemma StillUnique(s: State, s': State, err: Option<Error>)
    requires s.UniqueRows() && OnlyEvicts(s, s', err)
    ensures s'.UniqueRows()
  {
  }

  lemma {:induction false} DistinctRows(batch: seq<Entry>, signal: nat)
    requires forall i, j :: 0 <= i < j < |batch| ==> batch[i] != batch[j]
    requires forall e :: e in batch ==> e.signal == signal
    ensures |RowsOf(batch, signal)| == |batch|
  {
    if batch != [] {
      var init, last := batch[..|batch| - 1], batch[|batch| - 1];
      DistinctRows(init, signal);
      assert batch == init + [last];
      assert RowsOf(batch, signal) == RowsOf(init, signal) + {last.row};
      assert last.row !in RowsOf(init, signal);
    }
  }

  /** A selection of expired entries of one signal: distinct rows, and all of them when it is short. */
  lemma ExpiredBatch(s: State, signal: nat, cutoff: int, batch: seq<Entry>, n: nat)
    requires IsOldestBatch(ExpiredEntries(s, signal, cutoff), n, batch)
    ensures RowsOf(batch, signal) <= ExpiredRows(s.Of(signal).rows, cutoff)
    ensures |RowsOf(batch, signal)| == |batch|
    ensures |batch| < n ==> RowsOf(batch, signal) == ExpiredRows(s.Of(signal).rows, cutoff)
  {
    var rows, entries := ExpiredRows(s.Of(signal).rows, cutoff), ExpiredEntries(s, signal, cutoff);
    forall e | e in batch ensures e in entries {
      var i :| 0 <= i < |batch| && batch[i] == e;
    }
    DistinctRows(batch, signal);
    if |batch| < n {
      BatchIsAll(entries, batch);
      forall r | r in rows ensures r in RowsOf(batch, signal) {
        assert Entry(signal, r) in entries;
      }
    }
  }

  lemma BatchIsAll(entries: set<Entry>, batch: seq<Entry>)
    requires |batch| == |entries|
    requires forall i, j :: 0 <= i < j < |batch| ==> batch[i] != batch[j]
    requires forall i :: 0 <= i < |batch| ==> batch[i] in entries
    ensures forall e :: e in entries ==> e in batch
    decreases |batch|
  {
    if batch != [] {
      var init, last := batch[..|batch| - 1], batch[|batch| - 1];
      BatchIsAll(entries - {last}, init);
      assert forall e :: e in entries ==> e == last || e in entries - {last};
      assert batch == init + [last];
    }
  }

  lemma NothingDrained(s: State, err: Option<Error>, cutoff: int)
    requires forall k: nat :: Uncounted(err, k) == 0
    ensures OnlyEvicts(s, s, err) && OnlyExpiredLeft(s, s, cutoff)
  {
  }

  /** One retention statement: a batch of the oldest expired rows of one signal. */
  lemma DrainBatch(s: State, signal: nat, batch: seq<Entry>, n: nat, counted: nat, err: Option<Error>, cutoff: int)
    requires signal <= METRICS && IsOldestBatch(ExpiredEntries(s, signal, cutoff), n, batch)
    requires counted + Uncounted(err, signal) == |batch| && forall k: nat :: k != signal ==> Uncounted(err, k) == 0
    ensures var s' := Shrunk(s, signal, RowsOf(batch, signal), counted);
      && OnlyEvicts(s, s', err) && OnlyExpiredLeft(s, s', cutoff)
      && ExpiredCount(s', cutoff) == ExpiredCount(s, cutoff) - |batch|
      && (|batch| < n ==> ExpiredRows(s'.Of(signal).rows, cutoff) == {})
  {
    ExpiredBatch(s, signal, cutoff, batch, n);
    DrainStep(s, signal, RowsOf(batch, signal), counted, err, cutoff);
  }

  /** The rows of one signal in a batch, in the order of the batch. */
  function RowList(batch: seq<Entry>, signal: nat): seq<Row> {
    if batch == [] then []
    else RowList(batch[..|batch| - 1], signal) + (if batch[|batch| - 1].signal == signal then [batch[|batch| - 1].row] else [])
  }

  function RowSet(rows: seq<Row>): Table {
    set r | r in rows
  }

  lemma RowsOfAppend(init: seq<Entry>, last: Entry, signal: nat)
    ensures RowsOf(init + [last], signal) == RowsOf(init, signal) + (if last.signal == signal then {last.row} else {})
    ensures last !in init && last.signal == signal ==> last.row !in RowsOf(init, signal)
  {
  }

  lemma RowSetAppend(rows: seq<Row>, r: Row)
    ensures RowSet(rows + [r]) == RowSet(rows) + {r}
  {
  }

  lemma {:induction false} RowListIsRows(batch: seq<Entry>, signal: nat)
    requires forall i, j :: 0 <= i < j < |batch| ==> batch[i] != batch[j]
    ensures RowSet(RowList(batch, signal)) == RowsOf(batch, signal)
    ensures |RowList(batch, signal)| == |RowsOf(batch, signal)|
  {
    if batch == [] {
      assert RowList(batch, signal) == [];
    } else {
      var init, last := batch[..|batch| - 1], batch[|batch| - 1];
      var before := RowList(init, signal);
      RowListIsRows(init, signal);
      RowsOfAppend(init, last, signal);
      assert init + [last] == batch;
      if last.signal == signal {
        RowSetAppend(before, last.row);
        assert RowList(batch, signal) == before + [last.row];
        assert last !in init;
      } else {
        assert RowList(batch, signal) == before;
      }
    }
  }

  lemma RowListSizes(batch: seq<Entry>)
    requires forall e :: e in batch ==> e.signal <= METRICS
    ensures |RowList(batch, LOGS)| + |RowList(batch, SPANS)| + |RowList(batch, METRICS)| == |batch|
  {
    if batch != [] {
      var init, last := batch[..|batch| - 1], batch[|batch| - 1];
      assert batch == init + [last];
      RowListSizes(init);
    }
  }

  /** The state once the rows of a batch have been deleted and counted. */
  function WithoutBatch(s: State, batch: seq<Entry>): State {
    s.(logs := Signal(s.logs.rows - RowSet(RowList(batch, LOGS)), s.logs.committed, s.logs.deleted + |RowList(batch, LOGS)|),
       spans := Signal(s.spans.rows - RowSet(RowList(batch, SPANS)), s.spans.committed, s.spans.deleted + |RowList(batch, SPANS)|),
       metrics := Signal(s.metrics.rows - RowSet(RowList(batch, METRICS)), s.metrics.committed, s.metrics.deleted + |RowList(batch, METRICS)|))
  }

  lemma BatchWithin(s: State, n: nat, batch: seq<Entry>, signal: nat)
    requires IsOldestBatch(s.Entries(), n, batch) && signal <= METRICS
    ensures RowsOf(batch, signal) <= s.Of(signal).rows
  {
    forall e | e in batch ensures e in s.Entries() {
      var i :| 0 <= i < |batch| && batch[i] == e;
    }
    EntriesOf(s);
  }

  lemma SignalBatch(s: State, n: nat, batch: seq<Entry>, signal: nat)
    requires IsOldestBatch(s.Entries(), n, batch) && signal <= METRICS
    ensures var x, rows := s.Of(signal), RowList(batch, signal);
      && RowSet(rows) == RowsOf(batch, signal)
      && SignalEvicts(x, Signal(x.rows - RowSet(rows), x.committed, x.deleted + |rows|), 0)
  {
    RowListIsRows(batch, signal);
    BatchWithin(s, n, batch, signal);
    SizeWithout(s.Of(signal).rows, RowsOf(batch, signal));
  }

  lemma BatchOnlyEvicts(s: State, batch: seq<Entry>)
    requires SignalEvicts(s.logs, WithoutBatch(s, batch).logs, 0)
    requires SignalEvicts(s.spans, WithoutBatch(s, batch).spans, 0)
    requires SignalEvicts(s.metrics, WithoutBatch(s, batch).metrics, 0)
    ensures OnlyEvicts(s, WithoutBatch(s, batch), None)
  {
  }

  lemma SelectionOnlyEvicts(s: State, n: nat, batch: seq<Entry>)
    requires IsOldestBatch(s.Entries(), n, batch)
    ensures OnlyEvicts(s, WithoutBatch(s, batch), None)
  {
    SignalBatch(s, n, batch, LOGS);
    SignalBatch(s, n, batch, SPANS);
    SignalBatch(s, n, batch, METRICS);
    BatchOnlyEvicts(s, batch);
  }

  lemma SelectionLeaves(s: State, n: nat, batch: seq<Entry>, signal: nat)
    requires IsOldestBatch(s.Entries(), n, batch) && signal <= METRICS
    ensures WithoutBatch(s, batch).Of(signal).rows == s.Of(signal).rows - RowsOf(batch, signal)
  {
    RowListIsRows(batch, signal);
    assert WithoutBatch(s, batch).Of(signal).rows == s.Of(signal).rows - RowSet(RowList(batch, signal));
  }

  lemma BatchTotal(s: State, n: nat, batch: seq<Entry>)
    requires IsOldestBatch(s.Entries(), n, batch)
    ensures Total(WithoutBatch(s, batch)) == Remaining(Total(s), n)
  {
    SignalBatch(s, n, batch, LOGS);
    SignalBatch(s, n, batch, SPANS);
    SignalBatch(s, n, batch, METRICS);
    BatchSignals(s, batch, n);
    RowListSizes(batch);
    EntriesSize(s);
  }

  /** One pressure batch: the oldest rows of all tables leave, and every one of them is counted. */
  lemma PressureBatch(s: State, n: nat, batch: seq<Entry>)
    requires IsOldestBatch(s.Entries(), n, batch)
    ensures OnlyEvicts(s, WithoutBatch(s, batch), None) && AgePrefix(s, WithoutBatch(s, batch))
    ensures Total(WithoutBatch(s, batch)) == Remaining(Total(s), n)
  {
    BatchTotal(s, n, batch);
    SelectionOnlyEvicts(s, n, batch);
    SelectionLeaves(s, n, batch, LOGS);
    SelectionLeaves(s, n, batch, SPANS);
    SelectionLeaves(s, n, batch, METRICS);
    PressureStep(s, WithoutBatch(s, batch), n, batch);
  }

  /** Nothing expired remains in the signals below the given one. */
  predicate DrainedUpTo(s: State, signal: nat, cutoff: int) {
    && (signal > LOGS ==> ExpiredRows(s.logs.rows, cutoff) == {})
    && (signal > SPANS ==> ExpiredRows(s.spans.rows, cutoff) == {})
    && (signal > METRICS ==> ExpiredRows(s.metrics.rows, cutoff) == {})
  }

  lemma StillDrained(s: State, s': State, err: Option<Error>, signal: nat, cutoff: int)
    requires OnlyEvicts(s, s', err) && DrainedUpTo(s, signal, cutoff)
    ensures DrainedUpTo(s', signal, cutoff)
  {
    ExpiredShrinks(s.logs.rows, s'.logs.rows, cutoff);
    ExpiredShrinks(s.spans.rows, s'.spans.rows, cutoff);
    ExpiredShrinks(s.metrics.rows, s'.metrics.rows, cutoff);
  }

  lemma ExpiredShrinks(t: Table, t': Table, cutoff: int)
    requires t' <= t
    ensures ExpiredRows(t', cutoff) <= ExpiredRows(t, cutoff)
  {
  }

  lemma DrainedIsNoneExpired(s: State, cutoff: int)
    requires DrainedUpTo(s, METRICS + 1, cutoff)
    ensures NoneExpired(s, cutoff)
  {
    forall e | e in s.Entries() ensures !Expired(e.row, cutoff) {
      EntriesOf(s);
      assert e.row !in ExpiredRows(s.Of(e.signal).rows, cutoff);
    }
  }

  lemma BatchSignals(s: State, batch: seq<Entry>, n: nat)
    requires IsOldestBatch(s.Entries(), n, batch)
    ensures forall e :: e in batch ==> e.signal <= METRICS
  {
    forall e | e in batch ensures e.signal <= METRICS {
      var i :| 0 <= i < |batch| && batch[i] == e;
      assert e in s.Entries();
    }
  }
}
