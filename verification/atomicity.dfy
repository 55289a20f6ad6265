/** An operation whose steps nobody interrupts does what the method of the store does. */
module Atomicity {
  import opened Options
  import opened Tables
  import opened StoreState
  import opened Eviction
  import opened Interleaving
  import TelemetryStore

  /** The next n steps of one goroutine, with the same answers throughout and the writer free; it stops when it is idle. */
  function Solo(s: State, pc: Pc, a: Action, n: nat): (State, Pc)
    decreases n
  {
    if n == 0 || pc.Idle? then (s, pc)
    else
      var e := Step(s, pc, a, true, 0);
      Solo(e.s, e.pc, a, n - 1)
  }

  lemma SoloStep(s: State, pc: Pc, a: Action, n: nat)
    requires n > 0 && !pc.Idle?
    ensures var e := Step(s, pc, a, true, 0); Solo(s, pc, a, n) == Solo(e.s, e.pc, a, n - 1)
  {
  }

  lemma SoloIdle(s: State, a: Action)
    ensures forall n: nat :: Solo(s, Idle, a, n) == (s, Idle)
  {
  }

  /** Withdrawing readiness and giving the writer back. */
  lemma RecordsAlone(s: State, e: Error, a: Action, n: nat)
    requires a.Advance? && n >= 3
    ensures Solo(s, RecordError(e), a, n) == (SetOperationalError(s, e), Idle)
  {
    SoloStep(s, RecordError(e), a, n);
    var s1 := s.(lastError := Some(e));
    SoloStep(s1, SetNotReady, a, n - 1);
    SoloStep(s1.(ready := false), Releasing, a, n - 2);
  }

  /** Restoring readiness and giving the writer back. */
  lemma RecoversAlone(s: State, since: nat, a: Action)
    requires a.Advance?
    ensures Solo(s, ClearError(since), a, 3) == (s.(lastError := None, ready := true), Idle)
  {
    SoloStep(s, ClearError(since), a, 3);
    var s1 := s.(lastError := None);
    SoloStep(s1, SetReady(since), a, 2);
    SoloStep(s1.(ready := true), Releasing, a, 1);
  }

  /** Recording a write error and giving the writer back. */
  lemma FailsAlone(s: State, e: Error, a: Action, n: nat)
    requires a.Advance? && n >= 3
    ensures var f := WriteFailed(s, e); Solo(f.s, f.pc, a, n) == (RecordWriteError(s, e), Idle)
  {
    if IsStorageFailure(e) {
      RecordsAlone(s, e, a, n);
    } else {
      SoloStep(s, Releasing, a, n);
    }
  }

  /** The transaction of an admitted insert, its count and its end. */
  lemma TransactsAlone(s: State, signal: SignalId, records: seq<Record>, a: Action, n: nat)
    requires a.Advance? && n >= 4
    ensures var t := s.Of(signal).rows;
      Solo(s, Running(Insert(signal, records), 0), a, n)
        == (Finished(s, signal, Insertion(signal, t, records, a.sql), Missed(signal, t, records, a.counts)).0, Idle)
  {
    hide Insertion, Missed;
    var x := s.Of(signal);
    var missed := Missed(signal, x.rows, records, a.counts);
    SoloStep(s, Running(Insert(signal, records), 0), a, n);
    match Insertion(signal, x.rows, records, a.sql)
    case Failed(e) => FailsAlone(s, e, a, n - 1);
    case Done(u) =>
      var s1 := s.With(signal, x.(rows := u));
      SoloStep(s1, CountInserted(signal, Growth(x.rows, u, missed)), a, n - 1);
      CountsAlone(s, signal, u, missed);
      SoloStep(Committed(s, signal, u, missed), Releasing, a, n - 2);
  }

  lemma CountsAlone(s: State, signal: SignalId, u: Table, missed: nat)
    ensures var x := s.Of(signal);
      var y := s.With(signal, x.(rows := u)).Of(signal);
      s.With(signal, x.(rows := u)).With(signal, y.(committed := y.committed + Growth(x.rows, u, missed)))
        == Committed(s, signal, u, missed)
  {
  }

  /** An insert that found the store ready and is not interrupted ends in the state that its method gives. */
  lemma InsertAlone(s: State, signal: SignalId, records: seq<Record>, disk: Disk, sql: Answers, counts: Answers)
    requires s.ready
    ensures Solo(s, Waiting(Insert(signal, records)), Advance(disk, sql, counts), 8)
      == (Inserted(s, signal, records, None, disk, sql, counts).0, Idle)
  {
    hide Insertion, Finished, Missed;
    var a, op := Advance(disk, sql, counts), Insert(signal, records);
    assert s.(ready := true) == s;
    SoloStep(s, Waiting(op), a, 8);
    SoloStep(s, Locked(op, 0), a, 7);
    if !s.open {
      SoloStep(s, Releasing, a, 6);
    } else {
      SoloStep(s, Ready(signal, records), a, 6);
      if AdmissionError(s, disk).Some? {
        SoloStep(s, Releasing, a, 5);
      } else {
        TransactsAlone(s, signal, records, a, 5);
      }
    }
  }

  /** The deferred end of an uninterrupted maintenance run publishes its result as one assignment would. */
  lemma PublishAlone(s: State, result: Option<Error>, since: nat, a: Action)
    requires a.Advance?
    ensures Solo(s, Ending(result, since), a, 4) == (Publish(s, result), Idle)
  {
    hide Outside, Checking, Working, Solo;
    SoloIdle(Publish(s, result), a);
    SoloStep(s, Ending(result, since), a, 4);
    if !s.closing && result.None? {
      RecoversAlone(s, since, a);
    } else if !s.closing && !IsContextError(result.value) {
      RecordsAlone(s, result.value, a, 3);
    } else {
      SoloStep(s, Releasing, a, 3);
    }
  }

  /** A maintenance run that finds the store closed publishes just that. */
  lemma RefusalAlone(s: State, since: nat, a: Action)
    requires a.Advance? && (!s.open || s.closing)
    ensures Solo(s, Locked(Maintain, since), a, 5) == (Publish(s, Some(Error.Closed)), Idle)
  {
    hide Outside, Working, Solo, Publish;
    SoloStep(s, Locked(Maintain, since), a, 5);
    PublishAlone(s, Some(Error.Closed), since, a);
  }

  /** An uninterrupted shutdown of an open store ends closed, closing and not ready. */
  lemma ShutdownAlone(s: State, a: Action)
    requires a.Advance? && s.open
    ensures var e := Step(s, Idle, Begin(Shutdown), true, 0);
      Solo(e.s, e.pc, a, 5) == (s.(open := false, ready := false, closing := true), Idle)
  {
    var s1 := s.(closing := true);
    SoloStep(s1, Disarming, a, 5);
    var s2 := s1.(ready := false);
    SoloStep(s2, Waiting(Shutdown), a, 4);
    SoloStep(s2, Locked(Shutdown, 0), a, 3);
    SoloStep(s2, Running(Shutdown, 0), a, 2);
    SoloStep(s2.(open := false), Releasing, a, 1);
  }

  function AfterClear(s: State, sql: Answers): State {
    match FirstFailure(sql, CLEAR_CALLS)
    case Some(e) => RecordWriteError(s, e)
    case None => TelemetryStore.AllCleared(s)
  }

  /** An uninterrupted clear ends in the state that its method gives, whether or not the store is ready. */
  lemma ClearAlone(s: State, disk: Disk, sql: Answers, counts: Answers)
    ensures Solo(s, Waiting(Clear), Advance(disk, sql, counts), 7)
      == (if !s.open || s.closing then s else AfterClear(s, sql), Idle)
  {
    hide FirstFailure;
    var a := Advance(disk, sql, counts);
    SoloStep(s, Waiting(Clear), a, 7);
    SoloStep(s, Locked(Clear, 0), a, 6);
    if !s.open || s.closing {
      SoloStep(s, Releasing, a, 5);
    } else {
      ClearsAlone(s, a);
    }
  }

  lemma ClearsAlone(s: State, a: Action)
    requires a.Advance?
    ensures Solo(s, Running(Clear, 0), a, 5)
      == (AfterClear(s, a.sql), Idle)
  {
    hide FirstFailure;
    var failure := FirstFailure(a.sql, CLEAR_CALLS);
    SoloStep(s, Running(Clear, 0), a, 5);
    if failure.Some? {
      FailsAlone(s, failure.value, a, 4);
    } else {
      var rows := AllRows(s);
      SoloStep(Remove(s, rows), CountCleared(rows), a, 4);
      AllGone(s);
      SoloStep(TelemetryStore.AllCleared(s), Releasing, a, 3);
    }
  }

  lemma AllGone(s: State)
    ensures CountRows(Remove(s, AllRows(s)), AllRows(s)) == TelemetryStore.AllCleared(s)
  {
  }

  /** The two steps of a deletion under the writer: the statement, and the count of its rows. */
  function Deleted(s: State, rows: Rows, since: nat, count: Action): State {
    var e := Step(s, Running(Maintain, since), Delete(rows), true, 0);
    Step(e.s, e.pc, count, true, 0).s
  }

  lemma DeletedThenCounted(s: State, rows: Rows, since: nat, a: Action)
    requires Within(rows, s) && a.Advance?
    ensures Deleted(s, rows, since, a) == CountRows(Remove(s, rows), rows)
    ensures OneSignal(rows) ==> Deleted(s, rows, since, Miscount) == Remove(s, rows)
  {
    hide OneSignal, Within, Remove, CountRows, Transacting;
  }

  /** A retention statement and its count leave the state that the method gives, whether the count is answered or not. */
  lemma RetentionAlone(s: State, signal: SignalId, gone: Table, since: nat, a: Action)
    requires gone <= s.Of(signal).rows && a.Advance?
    ensures Deleted(s, OnlyRows(signal, gone), since, a) == Shrunk(s, signal, gone, |gone|)
    ensures Deleted(s, OnlyRows(signal, gone), since, Miscount) == Shrunk(s, signal, gone, 0)
  {
    hide Deleted;
    DeletedThenCounted(s, OnlyRows(signal, gone), since, a);
    assert Part(OnlyRows(signal, gone), signal) == gone;
  }

  /** The transaction of a pressure batch and its counts leave the state that the method gives. */
  lemma PressureAlone(s: State, n: nat, batch: seq<Entry>, since: nat, a: Action)
    requires IsOldestBatch(s.Entries(), n, batch) && a.Advance?
    ensures Deleted(s, Rows(RowsOf(batch, LOGS), RowsOf(batch, SPANS), RowsOf(batch, METRICS)), since, a) == WithoutBatch(s, batch)
  {
    hide Deleted, IsOldestBatch, RowsOf, RowList, RowSet, State.Entries;
    DistinctInBatch(s, n, batch);
    RowListIsRows(batch, LOGS);
    RowListIsRows(batch, SPANS);
    RowListIsRows(batch, METRICS);
    BatchWithin(s, n, batch, LOGS);
    BatchWithin(s, n, batch, SPANS);
    BatchWithin(s, n, batch, METRICS);
    DeletedThenCounted(s, Rows(RowsOf(batch, LOGS), RowsOf(batch, SPANS), RowsOf(batch, METRICS)), since, a);
  }

  lemma DistinctInBatch(s: State, n: nat, batch: seq<Entry>)
    requires IsOldestBatch(s.Entries(), n, batch)
    ensures forall i, j :: 0 <= i < j < |batch| ==> batch[i] != batch[j]
  {
  }
}
