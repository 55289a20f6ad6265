/**
 The store: one writer, three tables, lifetime counters and readiness. The disk, the database and
 the contexts answer from outside; every answer is arbitrary.
 */
module TelemetryStore {
  import opened Options
  import opened Tables
  import opened StoreState
  import opened Eviction

  /**
   Answers met during maintenance: statements and counts by the number of calls made so far, readings
   of the disk two for each round, checkpoints held up by a reader one before the rounds and one in each.
   */
  datatype World = World(sql: Answers, count: Answers, disk: nat -> Disk, busy: nat -> bool, freePages: nat -> int)

  const BATCH: nat := 5000

  const HOUR: int := 3_600_000_000_000

  class Store {
    const retentionHours: int
    var open: bool
    var ready: bool
    var closing: bool
    var lastError: Option<Error>
    var logs: Signal
    var spans: Signal
    var metrics: Signal

    function View(): State
      reads this
    {
      State(open, ready, closing, lastError, logs, spans, metrics)
    }

    constructor (retentionHours: int)
      ensures View() == State(false, false, false, None, Signal({}, 0, 0), Signal({}, 0, 0), Signal({}, 0, 0))
    {
      this.retentionHours := retentionHours;
      open, ready, closing, lastError := false, false, false, None;
      logs, spans, metrics := Signal({}, 0, 0), Signal({}, 0, 0), Signal({}, 0, 0);
    }

    method RecordFailure(e: Error)
      modifies this
      ensures View() == RecordWriteError(old(View()), e)
    {
      match e {
        case Sqlite(code) =>
          if code in {IoErr, StoreState.Full, Corrupt, NotADatabase, ReadOnly, CantOpen} {
            lastError := Some(e);
            ready := false;
          }
        case _ =>
      }
    }

    /** Whether an insert may start: first without the writer, then with it. */
    method EnterInsert(lock: Option<Failure>, disk: Disk) returns (err: Option<Error>)
      ensures err == if !ready then Some(NotReady) else if lock.Some? then lock else AdmissionError(View(), disk)
    {
      if !ready { return Some(NotReady); }
      if lock.Some? { return lock; }
      if !open || closing { return Some(NotReady); }
      if disk.activeBytes + REQUEST_RESERVE >= ACTIVE_HARD_LIMIT { return Some(NoReserve); }
      if disk.freeBytes < FREE_DISK_FLOOR + REQUEST_RESERVE { return Some(FreeDiskLow); }
      if disk.walBytes >= WAL_NOT_READY { return Some(WalHigh); }
      return None;
    }

    /** Counts the new rows of a committed transaction, or records why it failed. */
    method FinishInsert(signal: nat, rows: Table, inserted: nat, err: Option<Error>, ghost missed: nat)
      requires signal <= METRICS
      requires err.None? ==> |rows| == |View().Of(signal).rows| + inserted + missed
      modifies this
      ensures (View(), err) == Finished(old(View()), signal, Ended(rows, err), missed)
    {
      if err.Some? {
        RecordFailure(err.value);
      } else {
        var x := View().Of(signal);
        SetSignal(signal, Signal(rows, x.committed + inserted, x.deleted));
      }
    }

    method InsertLogs(records: seq<Record>, lock: Option<Failure>, disk: Disk, sql: Answers, counts: Answers)
      returns (err: Option<Error>)
      modifies this
      ensures (View(), err) == Inserted(old(View()), LOGS, records, lock, disk, sql, counts)
      ensures err.None? ==> Stores(old(logs.rows), records, logs.rows)
    {
      err := EnterInsert(lock, disk);
      if err.Some? { return; }
      var rows, inserted;
      ghost var missed := Missed(LOGS, logs.rows, records, counts);
      rows, inserted, err := RunLogs(logs.rows, records, sql, counts);
      FinishInsert(LOGS, rows, inserted, err, missed);
    }

    method InsertMetricPoints(records: seq<Record>, lock: Option<Failure>, disk: Disk, sql: Answers, counts: Answers)
      returns (err: Option<Error>)
      modifies this
      ensures (View(), err) == Inserted(old(View()), METRICS, records, lock, disk, sql, counts)
      ensures err.None? ==> Stores(old(metrics.rows), records, metrics.rows)
    {
      err := EnterInsert(lock, disk);
      if err.Some? { return; }
      var rows, inserted;
      ghost var missed := Missed(METRICS, metrics.rows, records, counts);
      rows, inserted, err := RunMetrics(metrics.rows, records, sql, counts);
      FinishInsert(METRICS, rows, inserted, err, missed);
    }

    method InsertSpanBatch(records: seq<Record>, lock: Option<Failure>, disk: Disk, sql: Answers, ghost counts: Answers)
      returns (err: Option<Error>)
      modifies this
      ensures (View(), err) == Inserted(old(View()), SPANS, records, lock, disk, sql, counts)
      ensures err.None? ==> Stores(old(spans.rows), records, spans.rows)
    {
      err := EnterInsert(lock, disk);
      if err.Some? { return; }
      var rows, inserted;
      ghost var missed := Missed(SPANS, spans.rows, records, counts);
      rows, inserted, err := RunSpans(spans.rows, records, sql);
      FinishInsert(SPANS, rows, inserted, err, missed);
    }

    method SetSignal(signal: nat, x: Signal)
      requires signal <= METRICS
      modifies this`logs, this`spans, this`metrics
      ensures View() == old(View()).With(signal, x)
    {
      if signal == LOGS { logs := x; } else if signal == SPANS { spans := x; } else { metrics := x; }
    }

    /** One retention statement: the oldest expired rows of a signal, at most a batch of them. */
    method DeleteExpired(signal: nat, cutoff: int, world: World, calls: nat) returns (n: nat, err: Option<Error>, ghost gone: Table)
      requires View().UniqueRows() && signal <= METRICS
      modifies this`logs, this`spans, this`metrics
      ensures err == DeletionError(world, calls, signal, n)
      ensures OldestExpired(gone, old(View()).Of(signal).rows, cutoff) && n == |gone| <= BATCH
      ensures View() == if world.sql(calls).Some? then old(View()) else Shrunk(old(View()), signal, gone, if err.None? then n else 0)
      ensures OnlyEvicts(old(View()), View(), err) && OnlyExpiredLeft(old(View()), View(), cutoff)
      ensures ExpiredCount(View(), cutoff) == ExpiredCount(old(View()), cutoff) - (if world.sql(calls).Some? then 0 else n)
      ensures err.None? && n < BATCH ==> ExpiredRows(View().Of(signal).rows, cutoff) == {}
    {
      hide IsOldestBatch, OldestExpired, OnlyEvicts, OnlyExpiredLeft, ExpiredRows, ExpiredCount, Unique, State.UniqueRows, RowsOf;
      ghost var s := View();
      DistinctEntries(s);
      var batch := SelectOldest(ExpiredEntries(View(), signal, cutoff), BATCH);
      n, gone := |batch|, RowsOf(batch, signal);
      ExpiredSelection(s, signal, cutoff, batch);
      err := world.sql(calls);
      if err.Some? {
        NothingDrained(s, err, cutoff);
        return;
      }
      var counted := n;
      if world.count(calls).Some? {
        counted, err := 0, Some(CountFailed(signal, n));
      }
      DrainBatch(s, signal, batch, BATCH, counted, err, cutoff);
      SetSignal(signal, Shrunk(View(), signal, RowsOf(batch, signal), counted).Of(signal));
      assert View() == Shrunk(s, signal, gone, counted);
    }

    /** One fair round over the three signals. */
    method DrainRound(cutoff: int, world: World, start: nat) returns (calls: nat, more: bool, err: Option<Error>)
      requires View().UniqueRows()
      modifies this`logs, this`spans, this`metrics
      ensures Calls(world, start, calls, err)
      ensures OnlyEvicts(old(View()), View(), err) && OnlyExpiredLeft(old(View()), View(), cutoff)
      ensures ExpiredCount(View(), cutoff) + (if more then BATCH else 0) <= ExpiredCount(old(View()), cutoff)
      ensures err.None? && !more ==> NoneExpired(View(), cutoff)
    {
      hide Calls, FailedAt, OnlyEvicts, OnlyExpiredLeft, ExpiredRows, OldestExpired, Shrunk, Unique, State.UniqueRows;
      ghost var s := View();
      NoCalls(world, start);
      calls, more, err := start, false, None;
      NothingDrained(s, None, cutoff);
      var signal := 0;
      while signal <= METRICS && err.None?
        invariant signal <= METRICS + 1
        invariant Calls(world, start, calls, err)
        invariant OnlyEvicts(s, View(), err) && OnlyExpiredLeft(s, View(), cutoff)
        invariant ExpiredCount(View(), cutoff) + (if more then BATCH else 0) <= ExpiredCount(s, cutoff)
        invariant err.None? && !more ==> DrainedUpTo(View(), signal, cutoff)
      {
        ghost var s1 := View();
        var n;
        ghost var gone;
        StillUnique(s, s1, None);
        n, err, gone := DeleteExpired(signal, cutoff, world, calls);
        EvictsTransitively(s, s1, View(), err);
        DrainTransitively(s, s1, View(), cutoff);
        if DrainedUpTo(s1, signal, cutoff) { StillDrained(s1, View(), err, signal, cutoff); }
        ExpiredCall(world, calls, signal, n, err);
        MoreCalls(world, start, calls, calls + 1, err);
        more := more || (err.None? && n == BATCH);
        calls, signal := calls + 1, signal + 1;
      }
      if err.None? && !more { DrainedIsNoneExpired(View(), cutoff); }
    }

    /** Retention rounds go on until no signal fills a batch; they stop at the first call that fails. */
    method Drain(cutoff: int, world: World) returns (calls: nat, err: Option<Error>)
      requires View().UniqueRows()
      modifies this`logs, this`spans, this`metrics
      ensures Calls(world, 0, calls, err)
      ensures OnlyEvicts(old(View()), View(), err) && OnlyExpiredLeft(old(View()), View(), cutoff)
      ensures err.None? ==> NoneExpired(View(), cutoff)
    {
      hide Calls, FailedAt, OnlyEvicts, OnlyExpiredLeft, ExpiredCount, NoneExpired, Unique, State.UniqueRows;
      ghost var s := View();
      NoCalls(world, 0);
      calls, err := 0, None;
      var more := true;
      NothingDrained(s, None, cutoff);
      while more && err.None?
        invariant Calls(world, 0, calls, err)
        invariant OnlyEvicts(s, View(), err) && OnlyExpiredLeft(s, View(), cutoff)
        invariant err.None? && !more ==> NoneExpired(View(), cutoff)
        decreases ExpiredCount(View(), cutoff), more
      {
        ghost var s1 := View();
        ghost var before := calls;
        StillUnique(s, s1, None);
        calls, more, err := DrainRound(cutoff, world, calls);
        MoreCalls(world, 0, before, calls, err);
        EvictsTransitively(s, s1, View(), err);
        DrainTransitively(s, s1, View(), cutoff);
      }
    }

    /** Evicts the oldest rows of all signals in one transaction; a failed call leaves every table alone. */
    method DeletePressureBatch(world: World, start: nat)
      returns (calls: nat, deleted: nat, err: Option<Failure>, ghost batch: seq<Entry>)
      requires View().UniqueRows()
      modifies this`logs, this`spans, this`metrics
      ensures Calls(world, start, calls, err) && (err.Some? ==> err == world.sql(calls - 1))
      ensures IsOldestBatch(old(View()).Entries(), BATCH, batch)
      ensures View() == if err.Some? then old(View()) else WithoutBatch(old(View()), batch)
      ensures err.None? ==> deleted == |batch|
    {
      hide Calls, FailedAt, IsOldestBatch, WithoutBatch, Unique, State.UniqueRows, State.Entries;
      NoCalls(world, start);
      DistinctEntries(View());
      var selected := SelectOldest(View().Entries(), BATCH);
      batch, deleted := selected, 0;
      err, calls := Statement(world, start, start);
      if err.Some? { return; }
      calls, deleted, err := DeleteBatch(selected, world, calls);
      MoreCalls(world, start, start + 1, calls, err);
    }

    method DeleteBatch(batch: seq<Entry>, world: World, start: nat) returns (calls: nat, deleted: nat, err: Option<Failure>)
      requires IsOldestBatch(View().Entries(), BATCH, batch)
      modifies this`logs, this`spans, this`metrics
      ensures Calls(world, start, calls, err) && (err.Some? ==> err == world.sql(calls - 1))
      ensures View() == if err.Some? then old(View()) else WithoutBatch(old(View()), batch)
      ensures err.None? ==> deleted == |batch|
    {
      hide Calls, FailedAt, IsOldestBatch, RowList, RowSet, State.Entries;
      ghost var s := View();
      var logIds, spanIds, metricIds;
      logIds, spanIds, metricIds, calls, err := CollectIds(batch, world, start);
      deleted := |logIds| + |spanIds| + |metricIds|;
      if err.Some? { return; }
      BatchSignals(s, batch, BATCH);
      RowListSizes(batch);
      if deleted == 0 {
        EmptyBatch(s);
        return;
      }
      ghost var collected := calls;
      var l, p, m;
      l, p, m, calls, err := DeleteAll(logs.rows, spans.rows, metrics.rows, logIds, spanIds, metricIds, world, calls);
      MoreCalls(world, start, collected, calls, err);
      if err.Some? { return; }
      var x := Signal(l, logs.committed, logs.deleted + |logIds|);
      var y := Signal(p, spans.committed, spans.deleted + |spanIds|);
      var z := Signal(m, metrics.committed, metrics.deleted + |metricIds|);
      assert x == WithoutBatch(s, batch).logs;
      assert y == WithoutBatch(s, batch).spans;
      assert z == WithoutBatch(s, batch).metrics;
      SetAll(x, y, z);
      assert View() == WithoutBatch(s, batch);
    }

    method SetAll(l: Signal, p: Signal, m: Signal)
      modifies this`logs, this`spans, this`metrics
      ensures View() == old(View()).(logs := l, spans := p, metrics := m)
    {
      logs, spans, metrics := l, p, m;
    }

    /**
     Reclaims space, and under pressure evicts the oldest rows, for a bounded number of rounds. A round
     passes its two readings only while the store is stuck; it then evicts a batch exactly when no page
     is free. Success means a reading at which the store was not stuck.
     */
    method Relieve(world: World, start: nat) returns (err: Option<Error>, calls: nat, ghost rounds: nat)
      requires View().UniqueRows()
      modifies this`logs, this`spans, this`metrics
      ensures StuckRounds(world, rounds)
      ensures Evicted(old(View()), View(), BATCH * EvictingRounds(world, rounds), Finishes(err))
      ensures Ends(world, start, calls, rounds, err, View()) && (err.Some? ==> !err.value.CountFailed?)
    {
      hide Calls, Ends, Evicted, StuckRounds, EvictingRounds, Stuck, Pressure, Unique, State.UniqueRows, State.Entries;
      ghost var s := View();
      calls, rounds := start, 0;
      NothingEvicted(s, world);
      NotStuckYet(world);
      NoCalls(world, start);
      err, calls := Statement(world, start, calls);
      if err.Some? { return; }
      err, calls := Checkpoint(world, start, calls, 0);
      if err.Some? { return; }
      for i := 0 to ROUNDS
        invariant rounds == i && StuckRounds(world, i) && !world.busy(0)
        invariant Calls(world, start, calls, None) && err.None?
        invariant Evicted(s, View(), BATCH * EvictingRounds(world, i), true)
      {
        ghost var n := BATCH * EvictingRounds(world, i);
        EvictedAtLeast(s, View(), n);
        OneMoreRound(world, i);
        var stuck;
        stuck, err, calls := ReadDisk(world, start, calls, i);
        if err.Some? { return; }
        if !stuck {
          SucceedsThere(world, start, calls, i, View());
          return;
        }
        rounds := i + 1;
        OneMoreStuck(world, i);
        err, calls := Statement(world, start, calls);
        if err.Some? { return; }
        if world.freePages(i) == 0 {
          var deleted;
          calls, deleted, err := EvictBatch(world, start, calls, s, n);
          if err.Some? { return; }
          if deleted == 0 {
            EmptiedThere(world, start, calls, rounds, View());
            return Some(NothingToEvict), calls, rounds;
          }
        }
        err, calls := Statement(world, start, calls);
        if err.Some? { return; }
      }
      PersistsThere(world, start, calls, View());
      err := Some(PressurePersists);
    }

    /** A pressure batch on top of those that went before. */
    method EvictBatch(world: World, ghost start: nat, call: nat, ghost s: State, ghost n: nat)
      returns (calls: nat, deleted: nat, err: Option<Failure>)
      requires s.UniqueRows() && Calls(world, start, call, None) && Evicted(s, View(), n, true)
      modifies this`logs, this`spans, this`metrics
      ensures Failing(world, start, calls, err)
      ensures if err.Some? then View() == old(View()) else Evicted(s, View(), n + BATCH, true) && Evicted(s, View(), n + BATCH, false)
      ensures err.None? && deleted == 0 ==> View().Entries() == {}
    {
      hide Calls, Evicted, IsOldestBatch, WithoutBatch, Unique, State.UniqueRows, State.Entries;
      ghost var s1 := View();
      ghost var batch;
      EvictedUnique(s, s1, n);
      calls, deleted, err, batch := DeletePressureBatch(world, call);
      MoreCalls(world, start, call, calls, err);
      FailsThere(world, start, calls, err);
      if err.None? {
        EvictedBatch(s, s1, n, batch);
        if deleted == 0 { NothingSelected(s1, batch); }
      }
    }

    /**
     Retention, then pressure eviction. Beyond the expired rows no more than a batch leaves for each
     round in which the store was stuck and no page was free.
     */
    method Clean(cutoff: int, world: World) returns (err: Option<Error>, calls: nat, ghost rounds: nat)
      requires View().UniqueRows()
      modifies this`logs, this`spans, this`metrics
      ensures OnlyEvicts(old(View()), View(), err)
      ensures EvictsByAge(old(View()), View(), cutoff)
      ensures err.None? ==> NoneExpired(View(), cutoff)
      ensures Cleaned(old(View()), View(), cutoff, world, calls, rounds, err)
    {
      hide Calls, OnlyEvicts, OnlyExpiredLeft, AgePrefix, Total, ExpiredCount, NoneExpired, Unique, State.UniqueRows, State.Entries, Stuck;
      ghost var s := View();
      rounds := 0;
      calls, err := Drain(cutoff, world);
      DrainedTotal(s, View(), err, cutoff);
      DrainEnds(world, calls, err, View());
      if err.None? {
        ghost var s1, drained := View(), calls;
        StillUnique(s, s1, None);
        err, calls, rounds := Relieve(world, calls);
        EvictsTransitively(s, s1, View(), None);
        DrainThenPressure(s, s1, View(), cutoff);
        NoRoundsNoEviction(s, s1, View(), world, rounds, cutoff);
        EndsLater(world, drained, calls, rounds, err, View());
        SameError(s, View(), err);
      }
    }

    /**
     Cleaning under the writer. Whatever goes wrong on the way, what left is an age prefix as soon as
     the drain is complete, and only expired rows before that.
     */
    method Maintain(now: int, lock: Option<Failure>, world: World) returns (err: Option<Error>, calls: nat, ghost rounds: nat)
      requires View().UniqueRows()
      modifies this
      ensures lock.Some? ==> err == lock && View() == old(View())
      ensures lock.None? && (!old(open) || old(closing)) ==> err == Some(Closed) && View() == Publish(old(View()), err)
      ensures lock.None? && old(open && !closing) ==>
        && OnlyEvicts(Publish(old(View()), err), View(), err)
        && Cleaned(old(View()), View(), now - retentionHours * HOUR, world, calls, rounds, err)
      ensures EvictsByAge(old(View()), View(), now - retentionHours * HOUR)
      ensures err.None? ==> forall e :: e in View().Entries() ==> now - e.row.record.receivedAt <= retentionHours * HOUR
      ensures View().UniqueRows()
    {
      hide OnlyEvicts, EvictsByAge, NoneExpired, Cleaned, Publish, Unique, State.UniqueRows;
      var cutoff := now - retentionHours * HOUR;
      calls, rounds := 0, 0;
      NothingCleaned(View(), cutoff);
      if lock.Some? {
        err := lock;
        return;
      }
      if !open || closing {
        err := Some(Closed);
      } else {
        err, calls, rounds := Clean(cutoff, world);
      }
      ghost var s1 := View();
      StillUnique(old(View()), s1, err);
      PublishResult(err);
      PublishKeeps(old(View()), s1, cutoff, world, calls, rounds, err);
      if err.None? { NothingOlder(View(), now, retentionHours * HOUR); }
    }

    /** The deferred end of a maintenance run, before the writer is released. */
    method PublishResult(err: Option<Error>)
      modifies this`ready, this`lastError
      ensures View() == Publish(old(View()), err)
    {
      if !closing {
        if err.Some? {
          if err != Some(Canceled) && err != Some(DeadlineExceeded) {
            lastError := Some(err.value);
            ready := false;
          }
        } else {
          lastError := None;
          ready := true;
        }
      }
    }

    /** Deletes all rows of all signals in one transaction, or nothing; readiness and the disk have no say in it. */
    method Clear(lock: Option<Failure>, pathsMatch: bool, sql: Answers) returns (result: ClearResult, err: Option<Error>)
      modifies this
      ensures err == if lock.Some? then lock
                     else if !old(open) || old(closing) then Some(Closed)
                     else if !pathsMatch then Some(DatabaseMismatch)
                     else FirstFailure(sql, CLEAR_CALLS)
      ensures err.None? ==>
        && View() == AllCleared(old(View()))
        && result == ClearResult(|old(logs.rows)|, |old(spans.rows)|, |old(metrics.rows)|)
      ensures err.Some? ==> View() == if lock.Some? then old(View()) else RecordWriteError(old(View()), err.value)
    {
      result := ClearResult(0, 0, 0);
      if lock.Some? { return result, lock; }
      if !open || closing { return result, Some(Closed); }
      if !pathsMatch { return result, Some(DatabaseMismatch); }
      var counts := [];
      var i := 0;
      err := sql(0);
      while i <= METRICS && err.None?
        invariant i <= METRICS + 1 && View() == old(View())
        invariant err == FirstFailure(sql, 2 * i + 1)
        invariant err.None? ==> |counts| == i && forall k: nat :: k < i ==> counts[k] == |View().Of(k).rows|
      {
        err := if sql(2 * i + 1).Some? then sql(2 * i + 1) else sql(2 * i + 2);
        counts := counts + [|View().Of(i).rows|];
        i := i + 1;
      }
      if err.None? { err := sql(7); }
      if err.Some? {
        RecordFailure(err.value);
        return;
      }
      result := ClearResult(counts[0], counts[1], counts[2]);
      SetAll(Signal({}, logs.committed, logs.deleted + result.logs),
             Signal({}, spans.committed, spans.deleted + result.spans),
             Signal({}, metrics.committed, metrics.deleted + result.metrics));
    }

    /** Opens the stored tables; admission starts only after a write has been tried out. */
    method Start(ownership: Option<Error>, schema: Option<Error>, probe: Option<Failure>, l: Table, p: Table, m: Table)
      returns (err: Option<Error>)
      requires !open
      modifies this
      ensures err.Some? ==> View() == old(View())
      ensures err == if ownership.Some? then ownership else if schema.Some? then schema else probe
      ensures err.None? ==>
        View() == old(View()).(open := true, ready := true,
                               logs := old(logs).(rows := l), spans := old(spans).(rows := p), metrics := old(metrics).(rows := m))
    {
      err := if ownership.Some? then ownership else schema;
      if err.Some? { return; }
      open := true;
      if probe.Some? {
        open := false;
        return probe;
      }
      logs, spans, metrics := logs.(rows := l), spans.(rows := p), metrics.(rows := m);
      ready := true;
    }

    /** Shutdown closes the database whatever the checkpoint and the close answer. */
    method Shutdown(checkpoint: Option<Failure>, close: Option<Failure>) returns (checkpointErr: Option<Failure>, closeErr: Option<Failure>)
      modifies this
      ensures View() == old(View()).(open := false, ready := false, closing := true)
      ensures old(open) ==> checkpointErr == checkpoint && closeErr == close
      ensures !old(open) ==> checkpointErr.None? && closeErr.None?
    {
      closing := true;
      ready := false;
      if !open { return None, None; }
      checkpointErr, closeErr := checkpoint, close;
      open := false;
    }
  }

  datatype ClearResult = ClearResult(logs: nat, spans: nat, metrics: nat)

  function ClearedSignal(x: Signal): Signal {
    Signal({}, x.committed, x.deleted + |x.rows|)
  }

  function AllCleared(s: State): State {
    s.(logs := ClearedSignal(s.logs), spans := ClearedSignal(s.spans), metrics := ClearedSignal(s.metrics))
  }

  // ----- What maintenance did, in terms of the answers it met -----

  /** The calls from start on: each one succeeded, except the last one if there is an error. */
  ghost predicate Calls(world: World, start: nat, calls: nat, err: Option<Error>) {
    && start <= calls
    && (err.None? ==> forall k: nat :: start <= k < calls ==> world.sql(k).None?)
    && (err.Some? ==>
          start < calls && (forall k: nat :: start <= k < calls - 1 ==> world.sql(k).None?) && FailedAt(world, calls - 1, err.value))
  }

  /** The call at k failed with this error: the statement itself, or its count. */
  predicate FailedAt(world: World, k: nat, e: Error) {
    world.sql(k) == Some(e) || (world.sql(k).None? && e.CountFailed? && world.count(k).Some?)
  }

  /** The error of a retention statement that deletes n rows: its own, or that of its count. */
  function DeletionError(world: World, call: nat, signal: nat, n: nat): Option<Error> {
    if world.sql(call).Some? then world.sql(call) else if world.count(call).Some? then Some(CountFailed(signal, n)) else None
  }

  const ROUNDS: nat := 200

  /** Under pressure or with a long log before the truncating checkpoint of a round, and still under pressure after it. */
  predicate Stuck(world: World, round: nat) {
    && (Pressure(world.disk(2 * round)) || world.disk(2 * round).walBytes >= WAL_NOT_READY)
    && Pressure(world.disk(2 * round + 1))
  }

  /** The rounds up to n were stuck, and no checkpoint up to there was held up by a reader. */
  ghost predicate StuckRounds(world: World, n: nat) {
    n <= ROUNDS && forall i :: 0 <= i < n ==> Stuck(world, i) && !world.busy(0) && !world.busy(i + 1)
  }

  lemma NotStuckYet(world: World)
    ensures StuckRounds(world, 0)
  {
  }

  lemma OneMoreStuck(world: World, n: nat)
    requires StuckRounds(world, n) && n < ROUNDS && Stuck(world, n) && !world.busy(0) && !world.busy(n + 1)
    ensures StuckRounds(world, n + 1)
  {
  }

  /** How many of the first n rounds found no free page. */
  function EvictingRounds(world: World, n: nat): nat {
    if n == 0 then 0 else EvictingRounds(world, n - 1) + (if world.freePages(n - 1) == 0 then 1 else 0)
  }

  /** Nothing stopped the rounds early. */
  predicate Finishes(err: Option<Error>) {
    err.None? || err.value.PressurePersists?
  }

  /** Why relief ended after so many stuck rounds. */
  ghost predicate Ends(world: World, start: nat, calls: nat, rounds: nat, err: Option<Error>, s': State) {
    match err
    case None => Calls(world, start, calls, None) && rounds < ROUNDS && !Stuck(world, rounds)
    case Some(PressurePersists) => Calls(world, start, calls, None) && rounds == ROUNDS
    case Some(NothingToEvict) => Calls(world, start, calls, None) && s'.Entries() == {} && EvictingRounds(world, rounds) > 0
    case Some(CheckpointBusy) => Calls(world, start, calls, None) && (world.busy(0) || world.busy(rounds + 1))
    case Some(e) => Calls(world, start, calls, err)
  }

  /** What a cleaning may do: how many rows may leave, when an unexpired one may, and why it ended. */
  ghost predicate Cleaned(s: State, s': State, cutoff: int, world: World, calls: nat, rounds: nat, err: Option<Error>) {
    && StuckRounds(world, rounds)
    && (EvictingRounds(world, rounds) == 0 ==> OnlyExpiredLeft(s, s', cutoff))
    && Total(s') >= Remaining(Total(s), ExpiredCount(s, cutoff) + BATCH * EvictingRounds(world, rounds))
    && (Finishes(err) ==> Total(s') == Remaining(Total(s), ExpiredCount(s, cutoff) + BATCH * EvictingRounds(world, rounds)))
    && Ends(world, 0, calls, rounds, err, s')
  }

  lemma NothingOlder(s: State, now: int, age: int)
    requires NoneExpired(s, now - age)
    ensures forall e :: e in s.Entries() ==> now - e.row.record.receivedAt <= age
  {
  }

  /**
   Unexpired rows are safe in every cleaning in which no round both stays under pressure after a
   truncating checkpoint that no reader held up and finds no free page.
   */
  lemma UnexpiredRowsStay(s: State, s': State, cutoff: int, world: World, calls: nat, rounds: nat, err: Option<Error>)
    requires Cleaned(s, s', cutoff, world, calls, rounds, err)
    requires forall i :: 0 <= i < ROUNDS ==> !Stuck(world, i) || world.busy(i + 1) || world.freePages(i) != 0
    ensures OnlyExpiredLeft(s, s', cutoff)
    ensures forall d :: d in s.Entries() && d.row.record.receivedAt >= cutoff ==> d in s'.Entries()
  {
    NoEvictingRound(world, rounds);
  }

  lemma {:induction false} NoEvictingRound(world: World, n: nat)
    requires forall i :: 0 <= i < n ==> world.freePages(i) != 0
    ensures EvictingRounds(world, n) == 0
  {
    if n > 0 {
      NoEvictingRound(world, n - 1);
    }
  }

  /** Without a round that evicts, relief removes nothing. */
  lemma NoRoundsNoEviction(s: State, s1: State, s2: State, world: World, rounds: nat, cutoff: int)
    requires OnlyExpiredLeft(s, s1, cutoff) && OnlyEvicts(s1, s2, None)
    requires Total(s2) >= Remaining(Total(s1), BATCH * EvictingRounds(world, rounds))
    ensures EvictingRounds(world, rounds) == 0 ==> OnlyExpiredLeft(s, s2, cutoff)
  {
    if EvictingRounds(world, rounds) == 0 {
      SameSize(s2.logs.rows, s1.logs.rows);
      SameSize(s2.spans.rows, s1.spans.rows);
      SameSize(s2.metrics.rows, s1.metrics.rows);
      assert s2.Entries() == s1.Entries();
    }
  }

  lemma NothingCleaned(s: State, cutoff: int)
    ensures EvictsByAge(s, s, cutoff) && OnlyEvicts(s, s, Some(Closed))
  {
  }

  /** Publishing a result touches no row. */
  lemma PublishKeeps(s: State, s1: State, cutoff: int, world: World, calls: nat, rounds: nat, err: Option<Error>)
    requires OnlyEvicts(s, s1, err)
    ensures var s2 := Publish(s1, err);
      && OnlyEvicts(Publish(s, err), s2, err)
      && (EvictsByAge(s, s1, cutoff) ==> EvictsByAge(s, s2, cutoff))
      && (NoneExpired(s1, cutoff) ==> NoneExpired(s2, cutoff))
      && (Cleaned(s, s1, cutoff, world, calls, rounds, err) ==> Cleaned(s, s2, cutoff, world, calls, rounds, err))
      && (s1.UniqueRows() ==> s2.UniqueRows())
  {
    hide Calls, Older, Expired, ExpiredRows, Stuck, Unique, Remaining;
    var s2 := Publish(s1, err);
    assert s2.Entries() == s1.Entries() && Total(s2) == Total(s1);
  }

  lemma SameError(s: State, s': State, err: Option<Error>)
    requires OnlyEvicts(s, s', None) && (err.Some? ==> !err.value.CountFailed?)
    ensures OnlyEvicts(s, s', err)
  {
  }

  lemma EndsLater(world: World, start: nat, calls: nat, rounds: nat, err: Option<Error>, s': State)
    requires Calls(world, 0, start, None) && Ends(world, start, calls, rounds, err, s')
    ensures Ends(world, 0, calls, rounds, err, s')
  {
    hide Calls, Stuck;
    var met := if err == Some(PressurePersists) || err == Some(NothingToEvict) || err == Some(CheckpointBusy) then None else err;
    MoreCalls(world, 0, start, calls, met);
  }

  /** A drain that fails ends a cleaning with the failure of its last call. */
  lemma DrainEnds(world: World, calls: nat, err: Option<Error>, s': State)
    requires Calls(world, 0, calls, err)
    ensures err.Some? ==> Ends(world, 0, calls, 0, err, s')
  {
  }

  /** Calls of which the last may have failed. */
  ghost predicate Failing(world: World, start: nat, calls: nat, err: Option<Failure>) {
    && Calls(world, start, calls, err)
    && (err.Some? ==> forall rounds: nat, s': State :: Ends(world, start, calls, rounds, err, s'))
  }

  lemma FailsThere(world: World, start: nat, calls: nat, err: Option<Failure>)
    requires Calls(world, start, calls, err)
    ensures Failing(world, start, calls, err)
  {
  }

  lemma SucceedsThere(world: World, start: nat, calls: nat, rounds: nat, s': State)
    requires Calls(world, start, calls, None) && rounds < ROUNDS && !Stuck(world, rounds)
    ensures Ends(world, start, calls, rounds, None, s')
  {
  }

  lemma EmptiedThere(world: World, start: nat, calls: nat, rounds: nat, s': State)
    requires Calls(world, start, calls, None) && s'.Entries() == {} && EvictingRounds(world, rounds) > 0
    ensures Ends(world, start, calls, rounds, Some(NothingToEvict), s')
  {
  }

  lemma PersistsThere(world: World, start: nat, calls: nat, s': State)
    requires Calls(world, start, calls, None)
    ensures Ends(world, start, calls, ROUNDS, Some(PressurePersists), s')
  {
  }

  lemma SameSize(t: Table, u: Table)
    requires t <= u
    ensures |t| <= |u| && (|t| == |u| ==> t == u)
  {
    SizeWithout(u, t);
    assert u == t + (u - t);
  }

  /** The rows of one retention statement: expired, no younger than an expired row that stays, and a full batch if there is one. */
  ghost predicate OldestExpired(gone: Table, t: Table, cutoff: int) {
    && gone <= ExpiredRows(t, cutoff)
    && |gone| == (if BATCH < |ExpiredRows(t, cutoff)| then BATCH else |ExpiredRows(t, cutoff)|)
    && forall d, e :: d in gone && e in ExpiredRows(t, cutoff) - gone ==> d.record.receivedAt <= e.record.receivedAt
  }

  lemma ExpiredSelection(s: State, signal: nat, cutoff: int, batch: seq<Entry>)
    requires signal <= METRICS && IsOldestBatch(ExpiredEntries(s, signal, cutoff), BATCH, batch)
    ensures OldestExpired(RowsOf(batch, signal), s.Of(signal).rows, cutoff) && |RowsOf(batch, signal)| == |batch| <= BATCH
  {
    var rows, gone := ExpiredRows(s.Of(signal).rows, cutoff), RowsOf(batch, signal);
    ExpiredBatch(s, signal, cutoff, batch, BATCH);
    TaggedSize(rows, signal);
    assert (set r | r in rows :: Entry(signal, r)) == ExpiredEntries(s, signal, cutoff);
    forall d, e | d in gone && e in rows - gone ensures d.record.receivedAt <= e.record.receivedAt {
      var i :| 0 <= i < |batch| && batch[i] == Entry(signal, d);
      assert Entry(signal, e) in ExpiredEntries(s, signal, cutoff) && Entry(signal, e) !in batch;
      assert Older(batch[i], Entry(signal, e));
    }
  }

  /** No more than the n oldest rows have left, each counted; exactly those if all is known. */
  ghost predicate Evicted(s: State, s': State, n: nat, exact: bool) {
    && OnlyEvicts(s, s', None) && AgePrefix(s, s')
    && Total(s') >= Remaining(Total(s), n) && (exact ==> Total(s') == Remaining(Total(s), n))
  }

  lemma NothingEvicted(s: State, world: World)
    ensures Evicted(s, s, BATCH * EvictingRounds(world, 0), true) && Evicted(s, s, BATCH * EvictingRounds(world, 0), false)
  {
  }

  lemma OneMoreRound(world: World, n: nat)
    ensures EvictingRounds(world, n + 1) == EvictingRounds(world, n) + (if world.freePages(n) == 0 then 1 else 0)
  {
  }

  lemma EvictedAtLeast(s: State, s': State, n: nat)
    requires Evicted(s, s', n, true)
    ensures Evicted(s, s', n, false) && Evicted(s, s', n + BATCH, false)
  {
  }

  lemma EvictedUnique(s: State, s': State, n: nat)
    requires s.UniqueRows() && Evicted(s, s', n, true)
    ensures s'.UniqueRows()
  {
    StillUnique(s, s', None);
  }

  lemma EvictedBatch(s: State, s1: State, n: nat, batch: seq<Entry>)
    requires Evicted(s, s1, n, true) && IsOldestBatch(s1.Entries(), BATCH, batch)
    ensures Evicted(s, WithoutBatch(s1, batch), n + BATCH, true) && Evicted(s, WithoutBatch(s1, batch), n + BATCH, false)
  {
    var s2 := WithoutBatch(s1, batch);
    PressureBatch(s1, BATCH, batch);
    EvictsTransitively(s, s1, s2, None);
    PrefixTransitively(s, s1, s2);
  }

  /** A full selection that is empty means there was nothing to evict. */
  lemma NothingSelected(s: State, batch: seq<Entry>)
    requires IsOldestBatch(s.Entries(), BATCH, batch) && |batch| == 0
    ensures WithoutBatch(s, batch) == s && s.Entries() == {}
  {
    EmptyBatch(s);
  }

  lemma EmptyBatch(s: State)
    ensures WithoutBatch(s, []) == s
  {
  }

  /** Clearing empties every table and keeps every balance. */
  lemma ClearKeepsBalance(s: State)
    ensures AllCleared(s).Entries() == {}
    ensures OnlyEvicts(s, AllCleared(s), None)
  {
  }

  lemma NoCalls(world: World, start: nat)
    ensures Calls(world, start, start, None)
  {
  }

  lemma MoreCalls(world: World, start: nat, mid: nat, calls: nat, err: Option<Error>)
    requires Calls(world, start, mid, None) && Calls(world, mid, calls, err)
    ensures Calls(world, start, calls, err)
  {
  }

  lemma ExpiredCall(world: World, call: nat, signal: nat, n: nat, err: Option<Error>)
    requires err == DeletionError(world, call, signal, n)
    ensures Calls(world, call, call + 1, err)
  {
  }

  /** One statement that changes no row. */
  method Statement(world: World, ghost start: nat, call: nat) returns (err: Option<Failure>, calls: nat)
    requires Calls(world, start, call, None)
    ensures calls == call + 1 && err == world.sql(call) && Calls(world, start, calls, err)
    ensures err.Some? ==> forall rounds: nat, s': State :: Ends(world, start, calls, rounds, err, s')
  {
    err, calls := world.sql(call), call + 1;
  }

  /** A checkpoint; the answer says whether a reader held it up. */
  method Checkpoint(world: World, ghost start: nat, call: nat, number: nat) returns (err: Option<Error>, calls: nat)
    requires Calls(world, start, call, None)
    ensures calls == call + 1 && Calls(world, start, calls, world.sql(call))
    ensures err == if world.sql(call).Some? then world.sql(call) else if world.busy(number) then Some(CheckpointBusy) else None
    ensures err.Some? ==> forall rounds: nat, s': State :: number == 0 || number == rounds + 1 ==> Ends(world, start, calls, rounds, err, s')
  {
    err, calls := world.sql(call), call + 1;
    if err.None? && world.busy(number) { err := Some(CheckpointBusy); }
  }

  /** The readings of a round, before and after a truncating checkpoint. */
  method ReadDisk(world: World, ghost start: nat, call: nat, round: nat) returns (stuck: bool, err: Option<Error>, calls: nat)
    requires Calls(world, start, call, None)
    ensures err.None? ==> Calls(world, start, calls, None) && stuck == Stuck(world, round) && (stuck ==> !world.busy(round + 1))
    ensures err.Some? ==> forall s': State :: Ends(world, start, calls, round, err, s')
    ensures err.Some? ==> !err.value.CountFailed?
  {
    hide Calls, Ends;
    stuck, err, calls := true, None, call;
    var d := world.disk(2 * round);
    var pressure := d.databaseBytes >= MAIN_HIGH_WATER || d.activeBytes + REQUEST_RESERVE >= ACTIVE_HARD_LIMIT
                    || d.freeBytes < FREE_DISK_FLOOR + REQUEST_RESERVE;
    if !pressure && d.walBytes < WAL_NOT_READY { return false, None, calls; }
    err, calls := Checkpoint(world, start, calls, round + 1);
    if err.None? {
      d := world.disk(2 * round + 1);
      stuck := !(d.databaseBytes < MAIN_HIGH_WATER && d.activeBytes + REQUEST_RESERVE < ACTIVE_HARD_LIMIT
                 && d.freeBytes >= FREE_DISK_FLOOR + REQUEST_RESERVE);
    }
  }

  /** Deletes rows by id inside a transaction; every row named is gone unless a call failed. */
  method DeleteEach(t: Table, ids: seq<Row>, world: World, start: nat) returns (rows: Table, calls: nat, err: Option<Failure>)
    ensures Calls(world, start, calls, err) && (err.Some? ==> err == world.sql(calls - 1))
    ensures err.None? ==> rows == t - RowSet(ids)
  {
    rows, calls, err := t, start, None;
    var i := 0;
    while i < |ids| && err.None?
      invariant i <= |ids|
      invariant err.None? ==> rows == t - RowSet(ids[..i])
      invariant Calls(world, start, calls, err) && (err.Some? ==> err == world.sql(calls - 1))
    {
      err, calls := world.sql(calls), calls + 1;
      assert RowSet(ids[..i + 1]) == RowSet(ids[..i]) + {ids[i]};
      rows := rows - {ids[i]};
      i := i + 1;
    }
    assert ids[..|ids|] == ids;
  }

  /** The transaction that deletes the selected rows of the three tables. */
  method DeleteAll(logs: Table, spans: Table, metrics: Table, logIds: seq<Row>, spanIds: seq<Row>, metricIds: seq<Row>,
                   world: World, start: nat)
    returns (l: Table, p: Table, m: Table, calls: nat, err: Option<Failure>)
    ensures Calls(world, start, calls, err) && (err.Some? ==> err == world.sql(calls - 1))
    ensures err.None? ==> l == logs - RowSet(logIds) && p == spans - RowSet(spanIds) && m == metrics - RowSet(metricIds)
  {
    l, p, m := logs, spans, metrics;
    err, calls := world.sql(start), start + 1;
    if err.Some? { return; }
    l, calls, err := DeleteEach(l, logIds, world, calls);
    if err.Some? { return; }
    p, calls, err := DeleteEach(p, spanIds, world, calls);
    if err.Some? { return; }
    m, calls, err := DeleteEach(m, metricIds, world, calls);
    if err.Some? { return; }
    err, calls := world.sql(calls), calls + 1;
  }

  /** Sorts the selected rows into one list of ids for each signal. */
  method CollectIds(batch: seq<Entry>, world: World, start: nat)
    returns (logIds: seq<Row>, spanIds: seq<Row>, metricIds: seq<Row>, calls: nat, err: Option<Failure>)
    ensures Calls(world, start, calls, err) && (err.Some? ==> err == world.sql(calls - 1))
    ensures err.None? ==>
      logIds == RowList(batch, LOGS) && spanIds == RowList(batch, SPANS) && metricIds == RowList(batch, METRICS)
  {
    logIds, spanIds, metricIds, calls, err := [], [], [], start, None;
    var i := 0;
    while i < |batch| && err.None?
      invariant i <= |batch|
      invariant Calls(world, start, calls, err) && (err.Some? ==> err == world.sql(calls - 1))
      invariant err.None? ==> logIds == RowList(batch[..i], LOGS) && spanIds == RowList(batch[..i], SPANS)
      invariant err.None? ==> metricIds == RowList(batch[..i], METRICS)
    {
      assert batch[..i + 1][..i] == batch[..i];
      err, calls := world.sql(calls), calls + 1;
      match batch[i].signal {
        case 0 => logIds := logIds + [batch[i].row];
        case 1 => spanIds := spanIds + [batch[i].row];
        case 2 => metricIds := metricIds + [batch[i].row];
        case _ =>
      }
      i := i + 1;
    }
    assert batch[..|batch|] == batch;
    if err.None? { err, calls := world.sql(calls), calls + 1; }
  }

  function Ended(rows: Table, err: Option<Error>): Attempt {
    if err.Some? then Failed(err.value) else Done(rows)
  }

  /**
   The loop of a log transaction. It counts the rows whose number it was told; an error of the count
   is ignored, and then the row is stored but not counted.
   */
  method RunLogs(t: Table, records: seq<Record>, sql: Answers, counts: Answers)
    returns (rows: Table, inserted: nat, err: Option<Error>)
    ensures Ended(rows, err) == Insertion(LOGS, t, records, sql)
    ensures err.None? ==> rows == InsertAll(t, records) && |rows| == |t| + inserted + Missed(LOGS, t, records, counts)
    ensures err.None? ==> Stores(t, records, rows)
  {
    hide Overlooked, IsNew;
    rows, inserted := t, 0;
    err := if sql(0).Some? then sql(0) else sql(1);
    NothingOverlooked(t, records, counts);
    var i := 0;
    while i < |records| && err.None?
      invariant 0 <= i <= |records|
      invariant Ended(rows, err) == LogTransaction(t, records[..i], sql)
      invariant err.None? ==> rows == InsertAll(t, records[..i]) && |rows| == |t| + inserted + |Overlooked(t, records, i, counts)|
    {
      LogStep(t, records, i, sql);
      err := sql(i + 2);
      if err.None? {
        InsertStep(t, records, i, counts);
        var added := if records[i].identity in Identities(rows) then 0 else 1;
        var counted := if counts(i).Some? then 0 else added;
        rows, inserted := InsertOne(rows, records[i]), inserted + counted;
      }
      i := i + 1;
    }
    LogPrefix(t, records, i, sql);
    assert err.None? ==> records[..i] == records;
    if err.None? { err := sql(|records| + 2); }
    if err.None? { InsertAllStores(t, records); }
  }

  /** The checks on the type of a metric and on the kind of its number. */
  method CheckMetric(c: Columns) returns (err: Option<Error>)
    ensures err == if ValidMetric(c) then None else Some(InvalidMetric)
  {
    if !c.MetricColumns? { return Some(InvalidMetric); }
    if c.metricType !in {"gauge", "sum", "histogram", "exponential_histogram", "summary"} { return Some(InvalidMetric); }
    if c.numberKind != "" && c.numberKind != "int" && c.numberKind != "double" { return Some(InvalidMetric); }
    return None;
  }

  method RunMetrics(t: Table, records: seq<Record>, sql: Answers, counts: Answers)
    returns (rows: Table, inserted: nat, err: Option<Error>)
    ensures Ended(rows, err) == Insertion(METRICS, t, records, sql)
    ensures err.None? ==> rows == InsertAll(t, records) && |rows| == |t| + inserted + Missed(METRICS, t, records, counts)
    ensures err.None? ==> Stores(t, records, rows)
  {
    hide Overlooked, IsNew;
    rows, inserted := t, 0;
    err := if sql(0).Some? then sql(0) else sql(1);
    NothingOverlooked(t, records, counts);
    var i := 0;
    while i < |records| && err.None?
      invariant 0 <= i <= |records|
      invariant Ended(rows, err) == MetricTransaction(t, records[..i], sql)
      invariant err.None? ==> rows == InsertAll(t, records[..i]) && |rows| == |t| + inserted + |Overlooked(t, records, i, counts)|
    {
      MetricStep(t, records, i, sql);
      err := CheckMetric(records[i].columns);
      if err.None? { err := sql(i + 2); }
      if err.None? {
        InsertStep(t, records, i, counts);
        var added := if records[i].identity in Identities(rows) then 0 else 1;
        var counted := if counts(i).Some? then 0 else added;
        rows, inserted := InsertOne(rows, records[i]), inserted + counted;
      }
      i := i + 1;
    }
    MetricPrefix(t, records, i, sql);
    assert err.None? ==> records[..i] == records;
    if err.None? { err := sql(|records| + 2); }
    if err.None? { InsertAllStores(t, records); }
  }

  method RunSpans(t: Table, records: seq<Record>, sql: Answers) returns (rows: Table, inserted: nat, err: Option<Error>)
    ensures Ended(rows, err) == Insertion(SPANS, t, records, sql)
    ensures err.None? ==> t <= rows && |rows| == |t| + inserted
    ensures err.None? ==> Stores(t, records, rows)
  {
    rows, inserted := t, 0;
    err := if sql(0).Some? then sql(0) else sql(1);
    var i := 0;
    while i < |records| && err.None?
      invariant 0 <= i <= |records|
      invariant Ended(rows, err) == SpanTransaction(t, records[..i], sql)
      invariant err.None? ==> t <= rows && |rows| == |t| + inserted
    {
      SpanStep(t, records, i, sql);
      var added;
      rows, added, err := RunSpan(rows, records[i], sql(2 * i + 2), sql(2 * i + 3));
      inserted := inserted + added;
      i := i + 1;
    }
    SpanPrefix(t, records, i, sql);
    if err.None? { err := sql(2 * |records| + 2); }
    if err.None? {
      TransactionInsertsSpans(t, records, sql);
      SpansStored(t, records);
    }
  }

  /** One span: look its identity up, then insert it when it is new. */
  method RunSpan(t: Table, record: Record, lookup: Option<Error>, insert: Option<Error>)
    returns (rows: Table, added: nat, err: Option<Error>)
    ensures Ended(rows, err)
      == if lookup.Some? then Failed(lookup.value)
         else if Conflicts(t, record) then Failed(SpanConflict)
         else if record.identity in Identities(t) then Done(t)
         else if insert.Some? then Failed(insert.value)
         else Done(InsertOne(t, record))
    ensures err.None? ==> t <= rows && |rows| == |t| + added
  {
    rows, added, err := t, 0, lookup;
    if err.None? && Conflicts(t, record) {
      err := Some(SpanConflict);
    } else if err.None? && record.identity !in Identities(t) {
      err := insert;
      if err.None? {
        InsertOneCounts(t, record);
        rows, added := InsertOne(t, record), 1;
      }
    }
  }

  lemma NothingOverlooked(t: Table, records: seq<Record>, counts: Answers)
    ensures Overlooked(t, records, 0, counts) == {}
  {
  }

  /** One more record of a batch: what the table and the overlooked rows gain. */
  lemma InsertStep(t: Table, records: seq<Record>, i: nat, counts: Answers)
    requires i < |records|
    ensures var u := InsertAll(t, records[..i]);
      && InsertAll(t, records[..i + 1]) == InsertOne(u, records[i])
      && |InsertOne(u, records[i])| == |u| + (if records[i].identity in Identities(u) then 0 else 1)
      && |Overlooked(t, records, i + 1, counts)|
           == |Overlooked(t, records, i, counts)| + (if records[i].identity !in Identities(u) && counts(i).Some? then 1 else 0)
  {
    hide IsNew, Overlooked, InsertOne, Identities;
    assert records[..i + 1][..i] == records[..i];
    InsertOneCounts(InsertAll(t, records[..i]), records[i]);
    NewMeansAbsent(t, records, i);
    OverlookedSizes(t, records, i, counts);
  }

  lemma OverlookedSizes(t: Table, records: seq<Record>, i: nat, counts: Answers)
    requires i < |records|
    ensures |Overlooked(t, records, i + 1, counts)|
      == |Overlooked(t, records, i, counts)| + (if IsNew(t, records, i) && counts(i).Some? then 1 else 0)
  {
    hide IsNew;
    assert Overlooked(t, records, i + 1, counts)
      == Overlooked(t, records, i, counts) + (if IsNew(t, records, i) && counts(i).Some? then {i} else {});
  }

  lemma LogStep(t: Table, records: seq<Record>, i: nat, sql: Answers)
    requires i < |records| && LogTransaction(t, records[..i], sql).Done?
    ensures var u := LogTransaction(t, records[..i], sql).rows;
      LogTransaction(t, records[..i + 1], sql)
        == if sql(i + 2).Some? then Failed(sql(i + 2).value) else Done(InsertOne(u, records[i]))
  {
    assert records[..i + 1][..i] == records[..i];
  }

  lemma MetricStep(t: Table, records: seq<Record>, i: nat, sql: Answers)
    requires i < |records| && MetricTransaction(t, records[..i], sql).Done?
    ensures var u := MetricTransaction(t, records[..i], sql).rows;
      MetricTransaction(t, records[..i + 1], sql)
        == if !ValidMetric(records[i].columns) then Failed(InvalidMetric)
           else if sql(i + 2).Some? then Failed(sql(i + 2).value) else Done(InsertOne(u, records[i]))
  {
    assert records[..i + 1][..i] == records[..i];
  }

  lemma SpanStep(t: Table, records: seq<Record>, i: nat, sql: Answers)
    requires i < |records| && SpanTransaction(t, records[..i], sql).Done?
    ensures var u := SpanTransaction(t, records[..i], sql).rows;
      SpanTransaction(t, records[..i + 1], sql)
        == if sql(2 * i + 2).Some? then Failed(sql(2 * i + 2).value)
           else if Conflicts(u, records[i]) then Failed(SpanConflict)
           else if records[i].identity in Identities(u) then Done(u)
           else if sql(2 * i + 3).Some? then Failed(sql(2 * i + 3).value)
           else Done(InsertOne(u, records[i]))
  {
    assert records[..i + 1][..i] == records[..i];
  }

  /** A failed record fails the rest of the batch with the same error. */
  lemma {:induction false} LogPrefix(t: Table, records: seq<Record>, i: nat, sql: Answers)
    requires i <= |records| && (LogTransaction(t, records[..i], sql).Failed? || i == |records|)
    ensures LogTransaction(t, records, sql) == LogTransaction(t, records[..i], sql)
  {
    if i < |records| {
      assert records[..|records| - 1][..i] == records[..i];
      LogPrefix(t, records[..|records| - 1], i, sql);
    } else {
      assert records[..i] == records;
    }
  }

  lemma {:induction false} MetricPrefix(t: Table, records: seq<Record>, i: nat, sql: Answers)
    requires i <= |records| && (MetricTransaction(t, records[..i], sql).Failed? || i == |records|)
    ensures MetricTransaction(t, records, sql) == MetricTransaction(t, records[..i], sql)
  {
    if i < |records| {
      assert records[..|records| - 1][..i] == records[..i];
      MetricPrefix(t, records[..|records| - 1], i, sql);
    } else {
      assert records[..i] == records;
    }
  }

  lemma {:induction false} SpanPrefix(t: Table, records: seq<Record>, i: nat, sql: Answers)
    requires i <= |records| && (SpanTransaction(t, records[..i], sql).Failed? || i == |records|)
    ensures SpanTransaction(t, records, sql) == SpanTransaction(t, records[..i], sql)
  {
    if i < |records| {
      assert records[..|records| - 1][..i] == records[..i];
      SpanPrefix(t, records[..|records| - 1], i, sql);
    } else {
      assert records[..i] == records;
    }
  }
}
