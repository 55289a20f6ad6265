/**
 The store under concurrency. Goroutines take one atomic step at a time: a load or store of an
 atomic, an acquisition or release of the writer, a committed statement. Schedules, contexts, disk
 and database answers are arbitrary; a log records what happened in which order.
 */
module Interleaving {
  import opened Options
  import opened Tables
  import opened StoreState

  datatype Op = Insert(signal: SignalId, records: seq<Record>) | Clear | Maintain | Shutdown

  /** Rows that leave in one statement or transaction. */
  datatype Rows = Rows(logs: Table, spans: Table, metrics: Table)

  datatype Pc =
    | Idle
    | Disarming                               // Shutdown: closing is set, ready is not yet cleared
    | Reporting(seen: bool)                   // OperationalSnapshot: ready is loaded, closing is not
    | Waiting(op: Op)                         // before the writer
    | Locked(op: Op, since: nat)              // holds the writer since this point of the log
    | Ready(signal: SignalId, records: seq<Record>) // Insert: open and ready seen, closing and disk not
    | Running(op: Op, since: nat)             // may use the database
    | CountInserted(signal: SignalId, n: nat)      // committed, not yet counted
    | CountCleared(rows: Rows)
    | CountDeleted(rows: Rows, since: nat)
    | Ending(result: Option<Error>, since: nat) // Maintain: the deferred publication
    | ClearError(since: nat)                  // success: last error, then ready
    | SetReady(since: nat)
    | RecordError(error: Error)               // failure: last error, then ready
    | SetNotReady
    | Releasing

  /** Steps that carry an answer from outside; every other step is Advance. */
  datatype Action =
    | Begin(op: Op)
    | Report
    | Cancel
    | Advance(disk: Disk, sql: Answers, counts: Answers)
    | Delete(rows: Rows)
    | Miscount
    | Finish(result: Option<Error>)

  datatype Event =
    | ClosingSet
    | FailureMet
    | Admitted
    | Recovered(since: nat)                   // ready is set
    | Withdrawn                               // ready is cleared
    | Batch(signal: SignalId, records: seq<Record>, missed: nat)
    | Removed(rows: Rows)
    | Miscounted(rows: Rows)
    | Reported(ready: bool)

  datatype System = System(s: State, holder: Option<nat>, threads: map<nat, Pc>, log: seq<Event>)

  predicate HoldsWriter(pc: Pc) {
    !(pc.Idle? || pc.Disarming? || pc.Reporting? || pc.Waiting?)
  }

  function Remove(s: State, rows: Rows): State {
    s.(logs := s.logs.(rows := s.logs.rows - rows.logs),
       spans := s.spans.(rows := s.spans.rows - rows.spans),
       metrics := s.metrics.(rows := s.metrics.rows - rows.metrics))
  }

  function CountRows(s: State, rows: Rows): State {
    s.(logs := s.logs.(deleted := s.logs.deleted + |rows.logs|),
       spans := s.spans.(deleted := s.spans.deleted + |rows.spans|),
       metrics := s.metrics.(deleted := s.metrics.deleted + |rows.metrics|))
  }

  predicate Within(rows: Rows, s: State) {
    rows.logs <= s.logs.rows && rows.spans <= s.spans.rows && rows.metrics <= s.metrics.rows
  }

  function Part(rows: Rows, signal: nat): Table {
    if signal == LOGS then rows.logs else if signal == SPANS then rows.spans else rows.metrics
  }

  function OnlyRows(signal: SignalId, gone: Table): Rows {
    Rows(if signal == LOGS then gone else {}, if signal == SPANS then gone else {}, if signal == METRICS then gone else {})
  }

  /** A retention statement deletes from one table; only there the database is asked how many rows have gone. */
  predicate OneSignal(rows: Rows) {
    exists k: SignalId :: rows == OnlyRows(k, Part(rows, k))
  }

  function AllRows(s: State): Rows {
    Rows(s.logs.rows, s.spans.rows, s.metrics.rows)
  }

  /** What one step of a goroutine does: to the shared state, to its own place, and to the log. */
  datatype Effect = Effect(s: State, pc: Pc, events: seq<Event>)

  /** Where a failed write goes: storage failures are recorded, other errors just release the writer. */
  function WriteFailed(s: State, e: Error): Effect {
    if IsStorageFailure(e) then Effect(s, RecordError(e), [FailureMet]) else Effect(s, Releasing, [])
  }

  /** A step that does not hold the writer; free says whether it can be had, now is the length of the log. */
  function Outside(s: State, pc: Pc, a: Action, free: bool, now: nat): Effect {
    match (pc, a)
    case (Idle, Begin(Insert(signal, records))) =>
      if s.ready then Effect(s, Waiting(a.op), []) else Effect(s, pc, [])
    case (Idle, Begin(Shutdown)) => Effect(s.(closing := true), Disarming, [ClosingSet])
    case (Idle, Begin(_)) => Effect(s, Waiting(a.op), [])
    case (Idle, Report) => Effect(s, Reporting(s.ready), [])
    case (Reporting(seen), Advance(disk, _, _)) => Effect(s, Idle, [Reported(ReportedReady(s.(ready := seen), disk))])
    case (Disarming, Advance(_, _, _)) => Effect(s.(ready := false), Waiting(Shutdown), [Withdrawn])
    case (Waiting(op), Advance(_, _, _)) => if free then Effect(s, Locked(op, now), []) else Effect(s, pc, [])
    case (Waiting(op), Cancel) => if op.Shutdown? then Effect(s, pc, []) else Effect(s, Idle, [])
    case _ => Effect(s, pc, [])
  }

  /** The checks made on entering the writer. */
  function Checking(s: State, pc: Pc, a: Action): Effect
    requires pc.Locked? || pc.Ready?
  {
    match (pc, a)
    case (Locked(op, _), Cancel) => if op.Shutdown? then Effect(s, pc, []) else Effect(s, Releasing, [])
    case (Locked(op, since), Advance(disk, _, _)) =>
      (match op
       case Insert(signal, records) => Effect(s, if s.open && s.ready then Ready(signal, records) else Releasing, [])
       case Clear => Effect(s, if s.open && !s.closing then Running(op, since) else Releasing, [])
       case Maintain => Effect(s, if s.open && !s.closing then Running(op, since) else Ending(Some(Error.Closed), since), [])
       case Shutdown => Effect(s, if s.open then Running(op, since) else Releasing, []))
    case (Ready(signal, records), Advance(disk, _, _)) =>
      if AdmissionError(s.(ready := true), disk).Some? then Effect(s, Releasing, [])
      else Effect(s, Running(Insert(signal, records), 0), [Admitted])
    case _ => Effect(s, pc, [])
  }

  /** A statement or transaction, and the counting of its rows. */
  function Working(s: State, pc: Pc, a: Action): Effect
    requires pc.Running? || pc.CountInserted? || pc.CountCleared? || pc.CountDeleted?
  {
    if pc.Running? then
      if pc.op.Maintain? then Maintaining(s, pc.since, a)
      else if a.Advance? then Transacting(s, pc.op, a.sql, a.counts)
      else Effect(s, pc, [])
    else Counting(s, pc, a)
  }

  function Transacting(s: State, op: Op, sql: Answers, counts: Answers): Effect
    requires !op.Maintain?
  {
    match op
    case Insert(signal, records) =>
      var x := s.Of(signal);
      (match Insertion(signal, x.rows, records, sql)
       case Failed(e) => WriteFailed(s, e)
       case Done(u) =>
         var missed := Missed(signal, x.rows, records, counts);
         Effect(s.With(signal, x.(rows := u)), CountInserted(signal, Growth(x.rows, u, missed)), [Batch(signal, records, missed)]))
    case Clear =>
      var failure := FirstFailure(sql, CLEAR_CALLS);
      if failure.Some? then WriteFailed(s, failure.value)
      else Effect(Remove(s, AllRows(s)), CountCleared(AllRows(s)), [Removed(AllRows(s))])
    case Shutdown => Effect(s.(open := false), Releasing, [])
  }

  function Maintaining(s: State, since: nat, a: Action): Effect {
    match a
    case Delete(rows) =>
      if Within(rows, s) then Effect(Remove(s, rows), CountDeleted(rows, since), [Removed(rows)])
      else Effect(s, Running(Maintain, since), [])
    case Finish(result) => Effect(s, Ending(result, since), [])
    case _ => Effect(s, Running(Maintain, since), [])
  }

  function Counting(s: State, pc: Pc, a: Action): Effect
    requires pc.CountInserted? || pc.CountCleared? || pc.CountDeleted?
  {
    if a.Advance? then
      match pc
      case CountInserted(signal, n) =>
        var x := s.Of(signal);
        Effect(s.With(signal, x.(committed := x.committed + n)), Releasing, [])
      case CountCleared(rows) => Effect(CountRows(s, rows), Releasing, [])
      case CountDeleted(rows, since) => Effect(CountRows(s, rows), Running(Maintain, since), [])
    else if a.Miscount? && pc.CountDeleted? && OneSignal(pc.rows) then
      Effect(s, Ending(Some(CountFailed(0, 0)), pc.since), [Miscounted(pc.rows)])
    else Effect(s, pc, [])
  }

  /** The publication of a result, and the release of the writer. */
  function Leaving(s: State, pc: Pc, a: Action): Effect {
    match (pc, a)
    case (Ending(result, since), Advance(_, _, _)) =>
      if s.closing then Effect(s, Releasing, [])
      else if result.None? then Effect(s, ClearError(since), [])
      else if IsContextError(result.value) then Effect(s, Releasing, [])
      else Effect(s, RecordError(result.value), [FailureMet])
    case (ClearError(since), Advance(_, _, _)) => Effect(s.(lastError := None), SetReady(since), [])
    case (SetReady(since), Advance(_, _, _)) => Effect(s.(ready := true), Releasing, [Recovered(since)])
    case (RecordError(e), Advance(_, _, _)) => Effect(s.(lastError := Some(e)), SetNotReady, [])
    case (SetNotReady, Advance(_, _, _)) => Effect(s.(ready := false), Releasing, [Withdrawn])
    case (Releasing, Advance(_, _, _)) => Effect(s, Idle, [])
    case _ => Effect(s, pc, [])
  }

  function Step(s: State, pc: Pc, a: Action, free: bool, now: nat): Effect {
    if !HoldsWriter(pc) then Outside(s, pc, a, free, now)
    else if pc.Locked? || pc.Ready? then Checking(s, pc, a)
    else if pc.Running? || pc.CountInserted? || pc.CountCleared? || pc.CountDeleted? then Working(s, pc, a)
    else Leaving(s, pc, a)
  }

  /** One step of goroutine t; a step that is not enabled leaves the system as it is. */
  function Next(w: System, t: nat, a: Action): System {
    if t !in w.threads then w
    else
      var e := Step(w.s, w.threads[t], a, w.holder.None?, |w.log|);
      var holder := if HoldsWriter(e.pc) then Some(t) else if w.holder == Some(t) then None else w.holder;
      System(e.s, holder, w.threads[t := e.pc], w.log + e.events)
  }

  datatype Move = Move(thread: nat, action: Action)

  function Run(w: System, schedule: seq<Move>): System {
    if schedule == [] then w
    else
      var move := schedule[|schedule| - 1];
      Next(Run(w, schedule[..|schedule| - 1]), move.thread, move.action)
  }

  /** A store that has started: nothing has happened yet. */
  ghost predicate Initial(w: System) {
    && w.s.open && !w.s.closing && w.s.UniqueRows()
    && w.holder.None? && w.log == []
    && forall t :: t in w.threads ==> w.threads[t].Idle?
  }

  // ----- What a goroutine is about -----

  /** The goroutine works on this operation, or is about to leave the writer. */
  predicate WorksOn(pc: Pc, op: Op) {
    match pc
    case Idle => false
    case Reporting(_) => false
    case Disarming => op.Shutdown?
    case Waiting(o) => o == op
    case Locked(o, _) => o == op
    case Running(o, _) => o == op
    case Ready(signal, records) => op == Insert(signal, records)
    case CountInserted(signal, _) => op.Insert? && op.signal == signal
    case CountCleared(_) => op.Clear?
    case CountDeleted(_, _) => op.Maintain?
    case Ending(_, _) => op.Maintain?
    case ClearError(_) => op.Maintain?
    case SetReady(_) => op.Maintain?
    case _ => !op.Shutdown?
  }

  /**
   A goroutine goes on with its operation until it is done; a shutdown, which no context can end, is done
   only once the database is closed.
   */
  lemma OperationStays(s: State, pc: Pc, op: Op, a: Action, free: bool, now: nat)
    requires WorksOn(pc, op)
    ensures var e := Step(s, pc, a, free, now);
      || WorksOn(e.pc, op)
      || (op.Shutdown? && e.pc.Releasing? && !e.s.open)
      || (!op.Shutdown? && e.pc.Idle? && (pc.Releasing? || (pc.Waiting? && a.Cancel? && e.s == s)))
  {
  }

  /** A goroutine that goes off to record a failure logs it, and one that starts an insert logs that it was admitted. */
  lemma TurnsAreLogged(s: State, pc: Pc, a: Action, free: bool, now: nat)
    ensures var e := Step(s, pc, a, free, now);
      && (e.pc.RecordError? && !pc.RecordError? ==> e.events == [FailureMet])
      && (e.pc.Running? && e.pc.op.Insert? && !pc.Running? ==> e.events == [Admitted])
  {
  }

  // ----- One writer at a time -----

  /** The goroutine that holds the writer is the only one past acquiring it. */
  ghost predicate Exclusive(w: System) {
    && (w.holder.Some? ==> w.holder.value in w.threads)
    && forall t :: t in w.threads ==> (HoldsWriter(w.threads[t]) <==> w.holder == Some(t))
  }

  function HolderPc(w: System): Pc {
    if w.holder.Some? && w.holder.value in w.threads then w.threads[w.holder.value] else Idle
  }

  lemma ExclusiveStep(w: System, t: nat, a: Action)
    requires Exclusive(w)
    ensures Exclusive(Next(w, t, a))
  {
    if t in w.threads {
      EntersOnlyWhenFree(w.s, w.threads[t], a, w.holder.None?, |w.log|);
    }
  }

  lemma EntersOnlyWhenFree(s: State, pc: Pc, a: Action, free: bool, now: nat)
    ensures HoldsWriter(Step(s, pc, a, free, now).pc) ==> HoldsWriter(pc) || free
  {
  }

  /** A step made without the writer: it can only clear ready, set closing, report, or take the writer. */
  lemma OutsideStep(s: State, pc: Pc, a: Action, free: bool, now: nat)
    requires !HoldsWriter(pc)
    ensures var e := Step(s, pc, a, free, now);
      && e.s == s.(ready := e.s.ready, closing := e.s.closing) && (e.s.ready ==> s.ready) && (s.closing ==> e.s.closing)
      && (HoldsWriter(e.pc) ==> e.pc.Locked? && e.pc.since == now && e.s == s && e.events == [])
      && (e.events == [] || (e.events == [ClosingSet] && e.s.closing) || e.events == [Withdrawn] || (|e.events| == 1 && e.events[0].Reported?))
      && (e.s.closing != s.closing ==> e.events == [ClosingSet])
  {
  }

  // ----- Rows and counters -----

  /** Rows committed but not yet counted, less rows deleted but not yet counted. */
  function Pending(pc: Pc, signal: nat): int {
    match pc
    case CountInserted(k, n) => if k == signal then n else 0
    case CountCleared(rows) => -|Part(rows, signal)|
    case CountDeleted(rows, _) => -|Part(rows, signal)|
    case _ => 0
  }

  /** Rows that left without being counted, because the answer about their number failed. */
  function Lost(log: seq<Event>, signal: nat): nat {
    if log == [] then 0
    else
      Lost(log[..|log| - 1], signal) +
      match log[|log| - 1] case Miscounted(rows) => |Part(rows, signal)| case _ => 0
  }

  /** Rows that were inserted without being counted, for the same reason. */
  function Unseen(log: seq<Event>, signal: nat): nat {
    if log == [] then 0
    else
      Unseen(log[..|log| - 1], signal) +
      match log[|log| - 1] case Batch(k, _, missed) => (if k == signal then missed else 0) case _ => 0
  }

  /** The tables that follow from the log, each batch applied whole and in order. */
  function Replay(rows: Rows, log: seq<Event>): Rows {
    if log == [] then rows else Apply(Replay(rows, log[..|log| - 1]), log[|log| - 1])
  }

  function Apply(rows: Rows, e: Event): Rows {
    match e
    case Batch(signal, records, _) =>
      if signal == LOGS then rows.(logs := InsertAll(rows.logs, records))
      else if signal == SPANS then rows.(spans := match InsertSpans(rows.spans, records) case Some(u) => u case None => rows.spans)
      else rows.(metrics := InsertAll(rows.metrics, records))
    case Removed(gone) => Rows(rows.logs - gone.logs, rows.spans - gone.spans, rows.metrics - gone.metrics)
    case _ => rows
  }

  /** Insertion keeps the rows that were there and makes the transaction of the batch. */
  lemma InsertEffect(s: State, signal: SignalId, records: seq<Record>, a: Action)
    requires s.UniqueRows() && a.Advance? && Insertion(signal, s.Of(signal).rows, records, a.sql).Done?
    ensures var u := Insertion(signal, s.Of(signal).rows, records, a.sql).rows; Unique(u) && |s.Of(signal).rows| <= |u|
    ensures forall missed: nat ::
      AllRows(Working(s, Running(Insert(signal, records), 0), a).s) == Apply(AllRows(s), Batch(signal, records, missed))
  {
    var rows := s.Of(signal).rows;
    InsertionIsWhole(signal, rows, records, a.sql);
    Sets.SubsetSize(rows, Insertion(signal, rows, records, a.sql).rows);
  }

  lemma RemoveSizes(s: State, rows: Rows, signal: SignalId)
    requires Within(rows, s)
    ensures |Remove(s, rows).Of(signal).rows| == |s.Of(signal).rows| - |Part(rows, signal)|
  {
    var t, gone := s.Of(signal).rows, Part(rows, signal);
    assert t == (t - gone) + gone;
  }

  predicate TouchesRows(pc: Pc) {
    pc.Running? || pc.CountInserted? || pc.CountCleared? || pc.CountDeleted?
  }

  /** The effect of a step that neither touches rows nor counters. */
  predicate LeavesRows(s: State, e: Effect) {
    && e.s == s.(open := e.s.open, ready := e.s.ready, closing := e.s.closing, lastError := e.s.lastError)
    && !e.pc.CountInserted? && !e.pc.CountCleared? && !e.pc.CountDeleted?
    && (e.events == [] || (|e.events| == 1 && !e.events[0].Batch? && !e.events[0].Removed? && !e.events[0].Miscounted?))
  }

  lemma OutsideLeavesRows(s: State, pc: Pc, a: Action, free: bool, now: nat)
    requires !HoldsWriter(pc)
    ensures LeavesRows(s, Outside(s, pc, a, free, now))
  {
  }

  lemma CheckingLeavesRows(s: State, pc: Pc, a: Action)
    requires pc.Locked? || pc.Ready?
    ensures LeavesRows(s, Checking(s, pc, a))
  {
  }

  lemma LeavingLeavesRows(s: State, pc: Pc, a: Action)
    requires !TouchesRows(pc)
    ensures LeavesRows(s, Leaving(s, pc, a))
  {
  }

  lemma OtherStepsLeaveRows(s: State, pc: Pc, a: Action, free: bool, now: nat)
    requires !TouchesRows(pc)
    ensures LeavesRows(s, Step(s, pc, a, free, now))
  {
    if !HoldsWriter(pc) {
      OutsideLeavesRows(s, pc, a, free, now);
    } else if pc.Locked? || pc.Ready? {
      CheckingLeavesRows(s, pc, a);
    } else {
      LeavingLeavesRows(s, pc, a);
    }
  }

  lemma RemoveRows(s: State, rows: Rows)
    requires s.UniqueRows()
    ensures Remove(s, rows).UniqueRows() && AllRows(Remove(s, rows)) == Apply(AllRows(s), Removed(rows))
  {
  }

  lemma InsertRows(s: State, op: Op, since: nat, a: Action)
    requires s.UniqueRows() && op.Insert? && a.Advance?
    ensures RowsFollow(s, Working(s, Running(op, since), a))
  {
    hide Insertion;
    if Insertion(op.signal, s.Of(op.signal).rows, op.records, a.sql).Done? {
      InsertEffect(s, op.signal, op.records, a);
    }
  }

  /** The new rows are what the logged event makes of the old ones. */
  ghost predicate RowsFollow(s: State, e: Effect) {
    && e.s.UniqueRows() && |e.events| <= 1
    && AllRows(e.s) == (if e.events == [] then AllRows(s) else Apply(AllRows(s), e.events[0]))
  }

  lemma CountingRows(s: State, pc: Pc, a: Action)
    requires s.UniqueRows() && TouchesRows(pc) && !pc.Running?
    ensures RowsFollow(s, Counting(s, pc, a))
  {
    hide Unique;
  }

  lemma MaintainingRows(s: State, since: nat, a: Action)
    requires s.UniqueRows()
    ensures RowsFollow(s, Maintaining(s, since, a))
  {
    hide Unique, Remove;
    if a.Delete? { RemoveRows(s, a.rows); }
  }

  lemma WorkingRows(s: State, pc: Pc, a: Action)
    requires s.UniqueRows() && TouchesRows(pc)
    ensures RowsFollow(s, Working(s, pc, a))
  {
    hide Unique, Remove, Counting, Maintaining, Insertion;
    if !pc.Running? {
      CountingRows(s, pc, a);
    } else if pc.op.Maintain? {
      MaintainingRows(s, pc.since, a);
    } else if pc.op.Insert? && a.Advance? {
      InsertRows(s, pc.op, pc.since, a);
    } else if pc.op.Clear? {
      RemoveRows(s, AllRows(s));
    }
  }

  function LostIn(e: Event, signal: nat): nat {
    if e.Miscounted? then |Part(e.rows, signal)| else 0
  }

  function UnseenIn(e: Event, signal: nat): nat {
    if e.Batch? && e.signal == signal then e.missed else 0
  }

  lemma InsertBalance(s: State, op: Op, since: nat, a: Action, k: SignalId)
    requires s.UniqueRows() && op.Insert? && a.Advance?
    ensures BalanceKept(s, Running(op, since), Working(s, Running(op, since), a), k)
  {
    hide Insertion, Missed;
    var t := s.Of(op.signal).rows;
    if Insertion(op.signal, t, op.records, a.sql).Done? {
      MissedWithin(op.signal, t, op.records, a.sql, a.counts);
    }
  }

  predicate BalanceKept(s: State, pc: Pc, e: Effect, k: SignalId) {
    Balance(e.s.Of(k)) - Pending(e.pc, k) + (if |e.events| == 1 then LostIn(e.events[0], k) - UnseenIn(e.events[0], k) else 0)
      == Balance(s.Of(k)) - Pending(pc, k)
  }

  lemma RemoveBalance(s: State, rows: Rows, k: SignalId)
    requires Within(rows, s)
    ensures Balance(Remove(s, rows).Of(k)) == Balance(s.Of(k)) - |Part(rows, k)|
  {
    RemoveSizes(s, rows, k);
  }

  lemma RunningBalance(s: State, pc: Pc, a: Action, k: SignalId)
    requires s.UniqueRows() && pc.Running?
    ensures BalanceKept(s, pc, Working(s, pc, a), k)
  {
    hide Transacting, Maintaining, Balance, Unique;
    if pc.op.Maintain? {
      MaintainingBalance(s, pc.since, a, k);
    } else if pc.op.Insert? && a.Advance? {
      InsertBalance(s, pc.op, pc.since, a, k);
    } else if a.Advance? {
      EndingBalance(s, pc.op, pc.since, a, k);
    }
  }

  lemma MaintainingBalance(s: State, since: nat, a: Action, k: SignalId)
    ensures BalanceKept(s, Running(Maintain, since), Maintaining(s, since, a), k)
  {
    hide Remove, Balance;
    if a.Delete? && Within(a.rows, s) { RemoveBalance(s, a.rows, k); }
  }

  lemma EndingBalance(s: State, op: Op, since: nat, a: Action, k: SignalId)
    requires (op.Clear? || op.Shutdown?) && a.Advance?
    ensures BalanceKept(s, Running(op, since), Working(s, Running(op, since), a), k)
  {
    hide Remove, Balance, FirstFailure;
    RemoveBalance(s, AllRows(s), k);
    SameBalance(s, k);
  }

  lemma SameBalance(s: State, k: SignalId)
    ensures Balance(s.(open := false).Of(k)) == Balance(s.Of(k))
  {
  }

  lemma CountingBalance(s: State, pc: Pc, a: Action, k: SignalId)
    requires TouchesRows(pc) && !pc.Running?
    ensures BalanceKept(s, pc, Working(s, pc, a), k)
  {
  }

  /** What a step does to rows and counters is what it writes to the log. */
  lemma StepRows(s: State, pc: Pc, a: Action, free: bool, now: nat)
    requires s.UniqueRows()
    ensures var e := Step(s, pc, a, free, now);
      && e.s.UniqueRows() && |e.events| <= 1
      && AllRows(e.s) == (if e.events == [] then AllRows(s) else Apply(AllRows(s), e.events[0]))
      && forall k: SignalId :: BalanceKept(s, pc, e, k)
  {
    hide Unique, Outside, Checking, Leaving, Transacting, Maintaining, Counting, Insertion;
    if TouchesRows(pc) {
      WorkingRows(s, pc, a);
      forall k: SignalId ensures BalanceKept(s, pc, Working(s, pc, a), k) {
        if pc.Running? { RunningBalance(s, pc, a, k); } else { CountingBalance(s, pc, a, k); }
      }
    } else {
      OtherStepsLeaveRows(s, pc, a, free, now);
      forall k: SignalId ensures BalanceKept(s, pc, Step(s, pc, a, free, now), k) {
      }
    }
  }

  /** The tables are the log replayed, and the counters differ from the rows only by what is pending or lost. */
  ghost predicate RowsFollowLog(w0: System, w: System) {
    && Exclusive(w) && w.s.UniqueRows()
    && AllRows(w.s) == Replay(AllRows(w0.s), w.log)
    && forall k: SignalId ::
         Balance(w.s.Of(k)) == Balance(w0.s.Of(k)) + Pending(HolderPc(w), k) - Lost(w.log, k) + Unseen(w.log, k)
  }

  lemma AppendEvent(rows: Rows, log: seq<Event>, e: Event)
    ensures Replay(rows, log + [e]) == Apply(Replay(rows, log), e)
    ensures forall k: SignalId :: Lost(log + [e], k) == Lost(log, k) + LostIn(e, k)
    ensures forall k: SignalId :: Unseen(log + [e], k) == Unseen(log, k) + UnseenIn(e, k)
  {
    assert (log + [e])[..|log|] == log;
  }

  lemma RowsFollowLogStep(w0: System, w: System, t: nat, a: Action)
    requires RowsFollowLog(w0, w)
    ensures RowsFollowLog(w0, Next(w, t, a))
  {
    if t in w.threads {
      var e := Step(w.s, w.threads[t], a, w.holder.None?, |w.log|);
      ExclusiveStep(w, t, a);
      StepRows(w.s, w.threads[t], a, w.holder.None?, |w.log|);
      HolderPcStep(w, t, a);
      EventsFollow(w0, w, Next(w, t, a), w.threads[t], e);
    }
  }

  /** One step's worth of rows, pending rows and events, put together. */
  lemma EventsFollow(w0: System, w: System, w': System, pc: Pc, e: Effect)
    requires RowsFollowLog(w0, w) && Exclusive(w')
    requires w'.s == e.s && w'.log == w.log + e.events
    requires e.s.UniqueRows() && |e.events| <= 1
    requires AllRows(e.s) == (if e.events == [] then AllRows(w.s) else Apply(AllRows(w.s), e.events[0]))
    requires forall k: SignalId :: BalanceKept(w.s, pc, e, k)
    requires forall k: SignalId :: Pending(HolderPc(w'), k) - Pending(HolderPc(w), k) == Pending(e.pc, k) - Pending(pc, k)
    ensures RowsFollowLog(w0, w')
  {
    if e.events == [] {
      assert w'.log == w.log;
    } else {
      assert w'.log == w.log + [e.events[0]];
      AppendEvent(AllRows(w0.s), w.log, e.events[0]);
    }
    forall k: SignalId
      ensures Balance(w'.s.Of(k)) == Balance(w0.s.Of(k)) + Pending(HolderPc(w'), k) - Lost(w'.log, k) + Unseen(w'.log, k)
    {
      assert BalanceKept(w.s, pc, e, k);
    }
  }

  /** Pending rows belong to the holder: a step moves them only for the goroutine that makes it. */
  lemma HolderPcStep(w: System, t: nat, a: Action)
    requires Exclusive(w) && t in w.threads
    ensures var e := Step(w.s, w.threads[t], a, w.holder.None?, |w.log|);
      forall k: SignalId ::
        Pending(HolderPc(Next(w, t, a)), k) - Pending(HolderPc(w), k) == Pending(e.pc, k) - Pending(w.threads[t], k)
  {
    if !HoldsWriter(w.threads[t]) {
      OutsideStep(w.s, w.threads[t], a, w.holder.None?, |w.log|);
    }
  }

  lemma {:induction false} RunsFollowLog(w0: System, schedule: seq<Move>)
    requires Initial(w0)
    ensures RowsFollowLog(w0, Run(w0, schedule))
  {
    if schedule != [] {
      var move := schedule[|schedule| - 1];
      RunsFollowLog(w0, schedule[..|schedule| - 1]);
      RowsFollowLogStep(w0, Run(w0, schedule[..|schedule| - 1]), move.thread, move.action);
    }
  }

  /**
   In every interleaving, whenever the writer is free: rows and identities are unique, the tables are
   the logged batches, evictions and clears applied whole one after the other, and each signal holds
   its rows at start plus committed minus deleted, less the deleted rows whose count was lost, plus the
   inserted rows whose count was not seen. So the counters account for the rows exactly when these two
   are equal.
   */
  lemma Conservation(w0: System, schedule: seq<Move>)
    requires Initial(w0) && Run(w0, schedule).holder.None?
    ensures var w := Run(w0, schedule);
      && w.s.UniqueRows() && AllRows(w.s) == Replay(AllRows(w0.s), w.log)
      && (forall k: SignalId :: Balance(w.s.Of(k)) == Balance(w0.s.Of(k)) - Lost(w.log, k) + Unseen(w.log, k))
      && (forall k: SignalId :: Balance(w.s.Of(k)) == Balance(w0.s.Of(k)) <==> Lost(w.log, k) == Unseen(w.log, k))
  {
    RunsFollowLog(w0, schedule);
  }

  /** Rows of a signal are lost exactly when a retention statement that deleted some was not counted. */
  lemma {:induction false} LostRule(log: seq<Event>, k: SignalId)
    ensures Lost(log, k) == 0 <==> forall e :: e in log && e.Miscounted? ==> Part(e.rows, k) == {}
  {
    if log != [] {
      LostRule(log[..|log| - 1], k);
      assert log == log[..|log| - 1] + [log[|log| - 1]];
    }
  }

  /** Rows of a signal go unseen exactly when a committed batch missed some. */
  lemma {:induction false} UnseenRule(log: seq<Event>, k: SignalId)
    ensures Unseen(log, k) == 0 <==> forall e :: e in log && e.Batch? && e.signal == k ==> e.missed == 0
  {
    if log != [] {
      UnseenRule(log[..|log| - 1], k);
      assert log == log[..|log| - 1] + [log[|log| - 1]];
    }
  }

  // ----- Readiness -----

  /** A failure has been met and no maintenance has recovered from it yet. */
  predicate Unrecovered(log: seq<Event>) {
    && log != []
    && (log[|log| - 1].FailureMet? || (!log[|log| - 1].Recovered? && Unrecovered(log[..|log| - 1])))
  }

  predicate NoFailureSince(log: seq<Event>, since: nat) {
    since <= |log| && forall k :: since <= k < |log| ==> !log[k].FailureMet?
  }

  /** What a log may say about readiness at one place. */
  predicate SoundAt(log: seq<Event>, j: nat)
    requires j < |log|
  {
    && (log[j].Admitted? ==> !Unrecovered(log[..j]))
    && (log[j].Recovered? ==> NoFailureSince(log[..j], log[j].since))
  }

  ghost predicate Sound(log: seq<Event>) {
    forall j: nat :: j < |log| ==> SoundAt(log, j)
  }

  /** The maintenance run that holds the writer has met no failure since it took it. */
  predicate Since(pc: Pc) {
    (pc.Locked? && pc.op.Maintain?) || (pc.Running? && pc.op.Maintain?) || pc.CountDeleted? || pc.Ending? || pc.ClearError? || pc.SetReady?
  }

  predicate Recording(pc: Pc) {
    pc.RecordError? || pc.SetNotReady?
  }

  predicate PastAdmission(pc: Pc) {
    pc.Ready? || (pc.Running? && pc.op.Insert?)
  }

  /** While a failure is unrecovered the store is not ready, and nothing is past admission. */
  predicate Guarded(s: State, pc: Pc, unrecovered: bool) {
    unrecovered ==> (Recording(pc) || !s.ready) && !PastAdmission(pc)
  }

  ghost predicate ReadinessHolds(s: State, pc: Pc, log: seq<Event>) {
    && Guarded(s, pc, Unrecovered(log))
    && (Since(pc) ==> NoFailureSince(log, pc.since))
    && Sound(log)
  }

  lemma SoundAppend(log: seq<Event>, e: Event)
    requires Sound(log)
    requires e.Admitted? ==> !Unrecovered(log)
    requires e.Recovered? ==> NoFailureSince(log, e.since)
    ensures Sound(log + [e])
  {
    forall j: nat | j < |log + [e]| ensures SoundAt(log + [e], j) {
      assert (log + [e])[..j] == log[..j];
      assert j < |log| ==> SoundAt(log, j);
      assert j == |log| ==> log[..j] == log;
    }
  }

  lemma UnrecoveredAppend(log: seq<Event>, e: Event)
    ensures Unrecovered(log + [e]) <==> e.FailureMet? || (!e.Recovered? && Unrecovered(log))
  {
    assert (log + [e])[..|log|] == log;
  }

  function After(e: Event, unrecovered: bool): bool {
    e.FailureMet? || (!e.Recovered? && unrecovered)
  }

  /** What a step under the writer does to readiness, apart from the log. */
  predicate KeepsReadiness(pc: Pc, unrecovered: bool, e: Effect) {
    && (Since(e.pc) ==> Since(pc) && e.pc.since == pc.since)
    && (e.events == [] ==> Guarded(e.s, e.pc, unrecovered))
    && (|e.events| == 1 ==>
          var x := e.events[0];
          && Guarded(e.s, e.pc, After(x, unrecovered))
          && (x.Admitted? ==> !unrecovered)
          && (x.Recovered? ==> Since(pc) && x.since == pc.since)
          && (x.FailureMet? ==> !Since(e.pc)))
    && |e.events| <= 1
  }

  lemma CheckingReadiness(s: State, pc: Pc, a: Action, unrecovered: bool)
    requires (pc.Locked? || pc.Ready?) && Guarded(s, pc, unrecovered)
    ensures KeepsReadiness(pc, unrecovered, Checking(s, pc, a))
  {
  }

  lemma WorkingReadiness(s: State, pc: Pc, a: Action, unrecovered: bool)
    requires TouchesRows(pc) && Guarded(s, pc, unrecovered)
    ensures KeepsReadiness(pc, unrecovered, Working(s, pc, a))
  {
  }

  lemma LeavingReadiness(s: State, pc: Pc, a: Action, unrecovered: bool)
    requires HoldsWriter(pc) && !TouchesRows(pc) && !pc.Locked? && !pc.Ready? && Guarded(s, pc, unrecovered)
    ensures KeepsReadiness(pc, unrecovered, Leaving(s, pc, a))
  {
  }

  /** A step under the writer keeps what is known about readiness. */
  lemma HolderReadiness(s: State, pc: Pc, a: Action, free: bool, log: seq<Event>)
    requires HoldsWriter(pc) && ReadinessHolds(s, pc, log)
    ensures var e := Step(s, pc, a, free, |log|);
      ReadinessHolds(e.s, e.pc, log + e.events)
  {
    var unrecovered := Unrecovered(log);
    if pc.Locked? || pc.Ready? {
      CheckingReadiness(s, pc, a, unrecovered);
    } else if TouchesRows(pc) {
      WorkingReadiness(s, pc, a, unrecovered);
    } else {
      LeavingReadiness(s, pc, a, unrecovered);
    }
    LogReadiness(pc, Step(s, pc, a, free, |log|), log);
  }

  lemma NoFailureAppend(log: seq<Event>, e: Event, since: nat)
    requires NoFailureSince(log, since) && !e.FailureMet?
    ensures NoFailureSince(log + [e], since)
  {
  }

  lemma LogReadiness(pc: Pc, e: Effect, log: seq<Event>)
    requires KeepsReadiness(pc, Unrecovered(log), e)
    requires Sound(log) && (Since(pc) ==> NoFailureSince(log, pc.since))
    ensures ReadinessHolds(e.s, e.pc, log + e.events)
  {
    if e.events == [] {
      assert log + e.events == log;
    } else {
      EventReadiness(pc, e, e.events[0], log);
      assert log + e.events == log + [e.events[0]];
    }
  }

  lemma EventReadiness(pc: Pc, e: Effect, x: Event, log: seq<Event>)
    requires KeepsReadiness(pc, Unrecovered(log), e) && e.events == [x]
    requires Sound(log) && (Since(pc) ==> NoFailureSince(log, pc.since))
    ensures ReadinessHolds(e.s, e.pc, log + [x])
  {
    UnrecoveredAppend(log, x);
    SoundAppend(log, x);
    if Since(e.pc) {
      NoFailureAppend(log, x, e.pc.since);
    }
  }

  lemma OneEvent(s: State, pc: Pc, a: Action, free: bool, now: nat)
    ensures |Step(s, pc, a, free, now).events| <= 1
  {
  }

  /** So does a step of any other goroutine. */
  lemma BystanderReadiness(s: State, pc: Pc, holder: Pc, a: Action, free: bool, log: seq<Event>)
    requires !HoldsWriter(pc) && ReadinessHolds(s, holder, log)
    requires free ==> holder == Idle
    ensures var e := Step(s, pc, a, free, |log|);
      ReadinessHolds(e.s, if HoldsWriter(e.pc) then e.pc else holder, log + e.events)
  {
    hide Step, Unrecovered, Sound;
    var e := Step(s, pc, a, free, |log|);
    OutsideStep(s, pc, a, free, |log|);
    EntersOnlyWhenFree(s, pc, a, free, |log|);
    if e.events == [] {
      assert log + e.events == log;
    } else {
      assert e.events == [e.events[0]];
      BystanderEvent(s, holder, e, e.events[0], log);
    }
  }

  lemma BystanderEvent(s: State, holder: Pc, e: Effect, x: Event, log: seq<Event>)
    requires ReadinessHolds(s, holder, log) && (e.s.ready ==> s.ready)
    requires x == ClosingSet || x == Withdrawn || x.Reported?
    ensures ReadinessHolds(e.s, holder, log + [x])
  {
    hide Unrecovered, Sound, NoFailureSince;
    UnrecoveredAppend(log, x);
    SoundAppend(log, x);
    if Since(holder) { NoFailureAppend(log, x, holder.since); }
  }

  ghost predicate ReadinessKept(w: System) {
    Exclusive(w) && ReadinessHolds(w.s, HolderPc(w), w.log)
  }

  lemma ReadinessStep(w: System, t: nat, a: Action)
    requires ReadinessKept(w)
    ensures ReadinessKept(Next(w, t, a))
  {
    if t in w.threads {
      var pc := w.threads[t];
      ExclusiveStep(w, t, a);
      if HoldsWriter(pc) {
        HolderReadiness(w.s, pc, a, w.holder.None?, w.log);
      } else {
        BystanderReadiness(w.s, pc, HolderPc(w), a, w.holder.None?, w.log);
      }
    }
  }

  lemma {:induction false} RunsKeepReadiness(w0: System, schedule: seq<Move>)
    requires Initial(w0)
    ensures ReadinessKept(Run(w0, schedule))
  {
    if schedule != [] {
      var move := schedule[|schedule| - 1];
      RunsKeepReadiness(w0, schedule[..|schedule| - 1]);
      ReadinessStep(Run(w0, schedule[..|schedule| - 1]), move.thread, move.action);
    }
  }

  lemma {:induction false} RecoveredBetween(log: seq<Event>, i: nat) returns (k: nat)
    requires i < |log| && log[i].FailureMet? && !Unrecovered(log)
    ensures i < k < |log| && log[k].Recovered?
  {
    k := |log| - 1;
    if !log[k].Recovered? {
      k := RecoveredBetween(log[..k], i);
    }
  }

  /**
   In every interleaving, after a failure no insert passes admission until a maintenance run that
   took the writer after that failure has succeeded.
   */
  lemma NoAdmissionBeforeRecovery(w0: System, schedule: seq<Move>, i: nat, j: nat)
    requires Initial(w0)
    requires var log := Run(w0, schedule).log; i < j < |log| && log[i].FailureMet? && log[j].Admitted?
    ensures var log := Run(w0, schedule).log;
      exists k :: i < k < j && log[k].Recovered? && i < log[k].since <= k
  {
    var log := Run(w0, schedule).log;
    RunsKeepReadiness(w0, schedule);
    assert SoundAt(log, j);
    var k := RecoveredBetween(log[..j], i);
    assert log[k].Recovered? && SoundAt(log, k);
    assert NoFailureSince(log[..k], log[k].since) && log[..k][i].FailureMet?;
  }

  // ----- Shutdown -----

  predicate ClosingIn(log: seq<Event>) {
    exists k :: 0 <= k < |log| && log[k].ClosingSet?
  }

  /** Once closing is set, nothing is admitted and nothing is reported ready. */
  predicate QuietAfterClosing(log: seq<Event>) {
    forall i, j :: 0 <= i < j < |log| && log[i].ClosingSet? ==> !log[j].Admitted? && log[j] != Reported(true)
  }

  predicate UsesDatabase(pc: Pc) {
    pc.Running? || pc.CountDeleted?
  }

  ghost predicate ClosingHolds(w: System) {
    && Exclusive(w)
    && (w.s.closing <==> ClosingIn(w.log)) && QuietAfterClosing(w.log)
    && (HolderPc(w).Ready? || UsesDatabase(HolderPc(w)) ==> w.s.open)
  }

  predicate ClosingKept(s: State, pc: Pc, e: Effect) {
    && (e.s.closing <==> s.closing || e.events == [ClosingSet])
    && (s.closing ==> e.events != [Admitted] && e.events != [Reported(true)])
    && (e.pc.Ready? || UsesDatabase(e.pc) ==> e.s.open || ((pc.Ready? || UsesDatabase(pc)) && !s.open))
    && (!HoldsWriter(pc) ==> e.s.open == s.open && !e.pc.Ready? && !UsesDatabase(e.pc))
  }

  lemma OutsideClosing(s: State, pc: Pc, a: Action, free: bool, now: nat)
    requires !HoldsWriter(pc)
    ensures ClosingKept(s, pc, Outside(s, pc, a, free, now))
  {
  }

  lemma CheckingClosing(s: State, pc: Pc, a: Action)
    requires pc.Locked? || pc.Ready?
    ensures ClosingKept(s, pc, Checking(s, pc, a))
  {
  }

  lemma WorkingClosing(s: State, pc: Pc, a: Action)
    requires TouchesRows(pc)
    ensures ClosingKept(s, pc, Working(s, pc, a))
  {
  }

  lemma LeavingClosing(s: State, pc: Pc, a: Action)
    requires HoldsWriter(pc) && !TouchesRows(pc) && !pc.Locked? && !pc.Ready?
    ensures ClosingKept(s, pc, Leaving(s, pc, a))
  {
  }

  /** What a step may do once the store is closing, and where it may use the database. */
  lemma ClosingEffect(s: State, pc: Pc, a: Action, free: bool, now: nat)
    ensures ClosingKept(s, pc, Step(s, pc, a, free, now)) && |Step(s, pc, a, free, now).events| <= 1
  {
    OneEvent(s, pc, a, free, now);
    if !HoldsWriter(pc) {
      OutsideClosing(s, pc, a, free, now);
    } else if pc.Locked? || pc.Ready? {
      CheckingClosing(s, pc, a);
    } else if TouchesRows(pc) {
      WorkingClosing(s, pc, a);
    } else {
      LeavingClosing(s, pc, a);
    }
  }

  lemma ClosingLog(log: seq<Event>, e: Event)
    requires QuietAfterClosing(log) && (ClosingIn(log) ==> e != Admitted && e != Reported(true))
    ensures QuietAfterClosing(log + [e]) && (ClosingIn(log + [e]) <==> ClosingIn(log) || e == ClosingSet)
  {
    var log' := log + [e];
    if k :| 0 <= k < |log| && log[k].ClosingSet? {
      assert log'[k].ClosingSet?;
    }
    if e == ClosingSet {
      assert log'[|log|].ClosingSet?;
    }
    if k :| 0 <= k < |log'| && log'[k].ClosingSet? && k < |log| {
      assert log[k].ClosingSet?;
    }
    forall i, j | 0 <= i < j < |log'| && log'[i].ClosingSet? ensures !log'[j].Admitted? && log'[j] != Reported(true) {
      assert log[i].ClosingSet?;
    }
  }

  lemma ClosingStep(w: System, t: nat, a: Action)
    requires ClosingHolds(w)
    ensures ClosingHolds(Next(w, t, a))
  {
    hide Step;
    if t in w.threads {
      var w' := Next(w, t, a);
      var e := Step(w.s, w.threads[t], a, w.holder.None?, |w.log|);
      ExclusiveStep(w, t, a);
      ClosingEffect(w.s, w.threads[t], a, w.holder.None?, |w.log|);
      if e.events == [] {
        assert w'.log == w.log;
      } else {
        ClosingLog(w.log, e.events[0]);
        assert w'.log == w.log + [e.events[0]];
      }
    }
  }

  lemma {:induction false} RunsKeepClosing(w0: System, schedule: seq<Move>)
    requires Initial(w0)
    ensures ClosingHolds(Run(w0, schedule))
  {
    if schedule != [] {
      var move := schedule[|schedule| - 1];
      RunsKeepClosing(w0, schedule[..|schedule| - 1]);
      ClosingStep(Run(w0, schedule[..|schedule| - 1]), move.thread, move.action);
    }
  }

  /**
   After a shutdown has set closing, no insert passes admission and readiness is never reported, even
   when a racing maintenance run stores ready afterwards; and only the goroutine that holds the
   writer of an open database uses it.
   */
  lemma ShutdownIsFinal(w0: System, schedule: seq<Move>)
    requires Initial(w0)
    ensures var w := Run(w0, schedule);
      && QuietAfterClosing(w.log)
      && (w.s.closing <==> ClosingIn(w.log))
      && forall t :: t in w.threads && UsesDatabase(w.threads[t]) ==> w.holder == Some(t) && w.s.open
  {
    RunsKeepClosing(w0, schedule);
  }

  ghost predicate Reachable(w0: System, w: System) {
    exists schedule: seq<Move> :: Run(w0, schedule) == w
  }

  lemma Reaches(w0: System, schedule: seq<Move>)
    ensures Reachable(w0, Run(w0, schedule))
  {
  }

  lemma Reach(w0: System, w: System, t: nat, a: Action) returns (w': System)
    requires Reachable(w0, w)
    ensures w' == Next(w, t, a) && Reachable(w0, w')
  {
    var schedule: seq<Move> :| Run(w0, schedule) == w;
    var longer := schedule + [Move(t, a)];
    assert longer[..|longer| - 1] == schedule;
    w' := Run(w0, longer);
  }
}
