/** Where the guarantees end: which interleavings leave readiness set after a shutdown, and which miscount rows. */
module Races {
  import opened Options
  import opened Tables
  import opened StoreState
  import opened Interleaving

  // ----- Readiness is what the log says last about it -----

  /** Ready was set, and nothing has cleared it since. */
  predicate RecoveredLast(log: seq<Event>) {
    exists k :: 0 <= k < |log| && log[k].Recovered? && forall j :: k < j < |log| ==> log[j] != Withdrawn
  }

  predicate ReadyBy(ready: bool, log: seq<Event>) {
    RecoveredLast(log) || (ready && Withdrawn !in log)
  }

  predicate SomebodyDisarms(w: System) {
    exists t :: t in w.threads && w.threads[t].Disarming?
  }

  ghost predicate ReadyLogged(w0: System, w: System) {
    && (w.s.ready <==> ReadyBy(w0.s.ready, w.log))
    && (SomebodyDisarms(w) ==> w.s.closing)
    && (w.s.closing ==> SomebodyDisarms(w) || Withdrawn in w.log)
  }

  lemma ReadyAppend(ready: bool, log: seq<Event>, e: Event)
    ensures ReadyBy(ready, log + [e]) <==> e.Recovered? || (e != Withdrawn && ReadyBy(ready, log))
    ensures Withdrawn in log + [e] <==> e == Withdrawn || Withdrawn in log
  {
    var log' := log + [e];
    if e.Recovered? {
      assert log'[|log|].Recovered?;
    } else if e != Withdrawn {
      if k :| 0 <= k < |log| && log[k].Recovered? && forall j :: k < j < |log| ==> log[j] != Withdrawn {
        assert log'[k].Recovered?;
      }
      if k :| 0 <= k < |log'| && log'[k].Recovered? && forall j :: k < j < |log'| ==> log'[j] != Withdrawn {
        assert log[k].Recovered? && forall j :: k < j < |log| ==> log'[j] == log[j];
      }
    } else {
      assert log'[|log|] == Withdrawn;
    }
  }

  /** What a step does to ready, closing and the place of its goroutine, and what it logs of that. */
  predicate ReadyStep(s: State, pc: Pc, e: Effect) {
    && |e.events| <= 1
    && (if e.events == [Withdrawn] then !e.s.ready
        else if |e.events| == 1 && e.events[0].Recovered? then e.s.ready
        else e.s.ready == s.ready)
    && (e.pc.Disarming? ==> e.s.closing) && (s.closing ==> e.s.closing)
    && (e.s.closing && !s.closing ==> e.pc.Disarming?)
    && (pc.Disarming? && !e.pc.Disarming? ==> e.events == [Withdrawn])
  }

  lemma ReadySteps(s: State, pc: Pc, a: Action, free: bool, now: nat)
    requires pc.Disarming? ==> s.closing
    ensures ReadyStep(s, pc, Step(s, pc, a, free, now))
  {
    hide Insertion, Missed, FirstFailure, Remove, CountRows, AllRows;
    if !HoldsWriter(pc) {
      assert ReadyStep(s, pc, Outside(s, pc, a, free, now));
    } else if pc.Locked? || pc.Ready? {
      assert ReadyStep(s, pc, Checking(s, pc, a));
    } else if TouchesRows(pc) {
      WorkingReady(s, pc, a);
    } else {
      assert ReadyStep(s, pc, Leaving(s, pc, a));
    }
  }

  lemma WorkingReady(s: State, pc: Pc, a: Action)
    requires TouchesRows(pc)
    ensures ReadyStep(s, pc, Working(s, pc, a))
  {
    hide Insertion, Missed, FirstFailure, AllRows;
  }

  lemma ReadyLoggedStep(w0: System, w: System, t: nat, a: Action)
    requires ReadyLogged(w0, w)
    ensures ReadyLogged(w0, Next(w, t, a))
  {
    hide Step, ReadyBy;
    if t in w.threads {
      var pc, w' := w.threads[t], Next(w, t, a);
      var e := Step(w.s, pc, a, w.holder.None?, |w.log|);
      ReadySteps(w.s, pc, a, w.holder.None?, |w.log|);
      if e.events == [] {
        assert w'.log == w.log;
      } else {
        assert w'.log == w.log + [e.events[0]];
        ReadyAppend(w0.s.ready, w.log, e.events[0]);
      }
      DisarmingStep(w, t, a);
    }
  }

  lemma DisarmingStep(w: System, t: nat, a: Action)
    requires t in w.threads
    ensures var pc := Next(w, t, a).threads[t];
      && (pc.Disarming? ==> SomebodyDisarms(Next(w, t, a)))
      && (SomebodyDisarms(w) && !SomebodyDisarms(Next(w, t, a)) ==> w.threads[t].Disarming?)
      && (SomebodyDisarms(Next(w, t, a)) && !SomebodyDisarms(w) ==> pc.Disarming?)
  {
    hide Step;
    var w' := Next(w, t, a);
    if u :| u in w.threads && w.threads[u].Disarming? && u != t {
      assert w'.threads[u].Disarming?;
    }
    if u :| u in w'.threads && w'.threads[u].Disarming? && u != t {
      assert w.threads[u].Disarming?;
    }
  }

  lemma {:induction false} RunsLogReadiness(w0: System, schedule: seq<Move>)
    requires Initial(w0)
    ensures ReadyLogged(w0, Run(w0, schedule))
  {
    if schedule != [] {
      var move := schedule[|schedule| - 1];
      RunsLogReadiness(w0, schedule[..|schedule| - 1]);
      ReadyLoggedStep(w0, Run(w0, schedule[..|schedule| - 1]), move.thread, move.action);
    }
  }

  /**
   In every interleaving the store is ready exactly when a recovery follows the last withdrawal, or it
   started ready and was never withdrawn. Once closing is set and every shutdown has cleared ready, only
   the recovery counts.
   */
  lemma ReadyByLog(w0: System, schedule: seq<Move>)
    requires Initial(w0)
    ensures var w := Run(w0, schedule);
      && (w.s.ready <==> RecoveredLast(w.log) || (w0.s.ready && Withdrawn !in w.log))
      && (w.s.closing && !SomebodyDisarms(w) ==> (w.s.ready <==> RecoveredLast(w.log)))
  {
    RunsLogReadiness(w0, schedule);
  }

  // ----- Which shutdowns leave ready set -----

  predicate Publishing(pc: Pc) {
    pc.ClearError? || pc.SetReady?
  }

  /** Every shutdown has cleared ready, and ready is set all the same. */
  predicate ReadyAgain(w: System) {
    w.s.ready && !SomebodyDisarms(w)
  }

  ghost predicate CanBeReadyAgain(w: System) {
    exists schedule: seq<Move> :: ReadyAgain(Run(w, schedule))
  }

  /** Closing, with no maintenance past its last look at closing: what is ready is about to be cleared. */
  ghost predicate Winding(w: System) {
    && w.s.closing && (w.s.ready ==> SomebodyDisarms(w))
    && forall t :: t in w.threads ==> !Publishing(w.threads[t])
  }

  /** The effect of a step of a goroutine that is not about to publish, once closing is set. */
  predicate Withholds(s: State, pc: Pc, e: Effect) {
    e.s.closing && !Publishing(e.pc) && (e.s.ready ==> s.ready) && (pc.Disarming? && !e.pc.Disarming? ==> !e.s.ready)
  }

  lemma NoLatePublication(s: State, pc: Pc, a: Action, free: bool, now: nat)
    requires s.closing && !Publishing(pc)
    ensures Withholds(s, pc, Step(s, pc, a, free, now))
  {
    hide Outside, Checking, Working, Leaving;
    if !HoldsWriter(pc) {
      OutsideWithholds(s, pc, a, free, now);
    } else if TouchesRows(pc) {
      WorkingWithholds(s, pc, a);
    } else {
      HoldingWithholds(s, pc, a);
    }
  }

  lemma OutsideWithholds(s: State, pc: Pc, a: Action, free: bool, now: nat)
    requires s.closing && !HoldsWriter(pc)
    ensures Withholds(s, pc, Outside(s, pc, a, free, now))
  {
  }

  lemma WorkingWithholds(s: State, pc: Pc, a: Action)
    requires s.closing && TouchesRows(pc)
    ensures Withholds(s, pc, Working(s, pc, a))
  {
    hide Insertion, Missed, FirstFailure, AllRows;
  }

  lemma HoldingWithholds(s: State, pc: Pc, a: Action)
    requires s.closing && HoldsWriter(pc) && !TouchesRows(pc) && !Publishing(pc)
    ensures Withholds(s, pc, if pc.Locked? || pc.Ready? then Checking(s, pc, a) else Leaving(s, pc, a))
  {
    hide AdmissionError;
  }

  lemma {:induction false} WindingGoesOn(w: System, schedule: seq<Move>)
    requires Winding(w)
    ensures Winding(Run(w, schedule))
  {
    if schedule != [] {
      hide Step;
      var move, v := schedule[|schedule| - 1], Run(w, schedule[..|schedule| - 1]);
      WindingGoesOn(w, schedule[..|schedule| - 1]);
      if move.thread in v.threads {
        NoLatePublication(v.s, v.threads[move.thread], move.action, v.holder.None?, |v.log|);
        DisarmingStep(v, move.thread, move.action);
      }
    }
  }

  /**
   A shutdown that sets closing can be followed by a run that ends ready, with ready cleared by every
   shutdown on the way, exactly when the maintenance run that holds the writer has already looked at
   closing and is about to publish its success.
   */
  lemma ReadyAfterShutdown(w0: System, before: seq<Move>, d: nat)
    requires Initial(w0)
    requires var w := Run(w0, before); d in w.threads && w.threads[d].Idle? && !w.s.closing
    ensures var c := Next(Run(w0, before), d, Begin(Shutdown));
      CanBeReadyAgain(c) <==> Publishing(HolderPc(c))
  {
    var w := Run(w0, before);
    var c := Next(w, d, Begin(Shutdown));
    RunsKeepReadiness(w0, before);
    RunsLogReadiness(w0, before);
    ExclusiveStep(w, d, Begin(Shutdown));
    assert c.threads[d].Disarming? && c.s.closing;
    if Publishing(HolderPc(c)) {
      PublishesLate(w, d);
    } else {
      forall t | t in c.threads ensures !Publishing(c.threads[t]) {
        assert HoldsWriter(c.threads[t]) <==> c.holder == Some(t);
      }
      forall schedule: seq<Move> ensures !ReadyAgain(Run(c, schedule)) {
        WindingGoesOn(c, schedule);
      }
    }
  }

  lemma PublishesLate(w: System, d: nat)
    requires Exclusive(w) && !SomebodyDisarms(w) && d in w.threads && w.threads[d].Idle?
    requires Publishing(HolderPc(Next(w, d, Begin(Shutdown))))
    ensures CanBeReadyAgain(Next(w, d, Begin(Shutdown)))
  {
    hide Checking, Working, Run, Reachable, AdmissionError, ReportedReady;
    var c := Next(w, d, Begin(Shutdown));
    var h := c.holder.value;
    assert h != d && c.threads[h] == w.threads[h] && w.holder == Some(h);
    StartsThere(c);
    var v := Reach(c, c, d, GO);
    assert v.threads == w.threads[d := Waiting(Shutdown)] && v.threads[h] == w.threads[h];
    PublishesIn(c, v, h);
  }

  lemma PublishesIn(c: System, v: System, h: nat)
    requires Reachable(c, v) && !SomebodyDisarms(v) && h in v.threads && Publishing(v.threads[h])
    ensures CanBeReadyAgain(c)
  {
    hide Outside, Checking, Working, Run, Reachable;
    var u := v;
    if v.threads[h].ClearError? {
      u := Reach(c, v, h, GO);
    }
    assert u.threads == v.threads[h := SetReady(v.threads[h].since)];
    var x := Reach(c, u, h, GO);
    assert x.threads == v.threads[h := Releasing] && x.s.ready;
    ReachedAgain(c, x);
  }

  lemma StartsThere(w: System)
    ensures Reachable(w, w)
  {
    Reaches(w, []);
  }

  lemma ReachedAgain(c: System, v: System)
    requires Reachable(c, v) && ReadyAgain(v)
    ensures CanBeReadyAgain(c)
  {
    var schedule: seq<Move> :| Run(c, schedule) == v;
  }

  /** A step with a database that answers everything and a disk that has room. */
  const GO := Advance(Disk(0, 0, FREE_DISK_FLOOR + REQUEST_RESERVE, 0), k => None, k => None)

  // ----- Runs of one goroutine among idle ones, and of two -----

  function Longer(log: seq<Event>, events: seq<Event>): (r: seq<Event>)
    ensures r == log + events
  {
    if events == [] then log else if log == [] then events else log + events
  }

  /** Goroutine m has come this far, and every other one is where it was at the start. */
  function Alone(w0: System, m: nat, s: State, pc: Pc, log: seq<Event>): System {
    System(s, if HoldsWriter(pc) then Some(m) else None, w0.threads[m := pc], log)
  }

  lemma AloneAtStart(w0: System, m: nat)
    requires Initial(w0) && m in w0.threads
    ensures Reachable(w0, Alone(w0, m, w0.s, Idle, []))
  {
    Reaches(w0, []);
    assert w0.threads[m := Idle] == w0.threads;
  }

  lemma AloneGoesOn(w0: System, m: nat, s: State, pc: Pc, log: seq<Event>, a: Action)
    requires Reachable(w0, Alone(w0, m, s, pc, log))
    ensures var e := Step(s, pc, a, !HoldsWriter(pc), |log|); Reachable(w0, Alone(w0, m, e.s, e.pc, Longer(log, e.events)))
  {
    hide Step, Run;
    var e := Step(s, pc, a, !HoldsWriter(pc), |log|);
    var w := Reach(w0, Alone(w0, m, s, pc, log), m, a);
    assert w0.threads[m := pc][m := e.pc] == w0.threads[m := e.pc];
    assert w == Alone(w0, m, e.s, e.pc, Longer(log, e.events));
  }

  /** Goroutines m and d have come this far, and every other one is where it was at the start. */
  function Both(w0: System, m: nat, d: nat, s: State, p: Pc, q: Pc, log: seq<Event>): System {
    System(s, if HoldsWriter(p) then Some(m) else if HoldsWriter(q) then Some(d) else None, w0.threads[m := p][d := q], log)
  }

  lemma FirstGoesOn(w0: System, m: nat, d: nat, s: State, p: Pc, q: Pc, log: seq<Event>, a: Action)
    requires m != d && Reachable(w0, Both(w0, m, d, s, p, q, log)) && !HoldsWriter(q)
    ensures var e := Step(s, p, a, !HoldsWriter(p), |log|); Reachable(w0, Both(w0, m, d, e.s, e.pc, q, Longer(log, e.events)))
  {
    hide Step, Run;
    var e := Step(s, p, a, !HoldsWriter(p), |log|);
    var w := Reach(w0, Both(w0, m, d, s, p, q, log), m, a);
    assert w0.threads[m := p][d := q][m := e.pc] == w0.threads[m := e.pc][d := q];
    assert w == Both(w0, m, d, e.s, e.pc, q, Longer(log, e.events));
  }

  lemma SecondGoesOn(w0: System, m: nat, d: nat, s: State, p: Pc, q: Pc, log: seq<Event>, a: Action)
    requires m != d && Reachable(w0, Both(w0, m, d, s, p, q, log))
    requires HoldsWriter(p) ==> q.Idle? || q.Disarming?
    ensures var e := Step(s, q, a, !HoldsWriter(p) && !HoldsWriter(q), |log|);
      Reachable(w0, Both(w0, m, d, e.s, p, e.pc, Longer(log, e.events)))
  {
    hide Run;
    var e := Step(s, q, a, !HoldsWriter(p) && !HoldsWriter(q), |log|);
    var w := Reach(w0, Both(w0, m, d, s, p, q, log), d, a);
    assert w0.threads[m := p][d := q][d := e.pc] == w0.threads[m := p][d := e.pc];
    assert w == Both(w0, m, d, e.s, p, e.pc, Longer(log, e.events));
  }

  ghost predicate Quiescent(w: System) {
    w.holder.None? && forall t :: t in w.threads ==> w.threads[t].Idle?
  }

  /** The race is real: a store can be completely shut down, every goroutine idle, and still have ready set. */
  lemma ReadyCanOutliveShutdown(w0: System, m: nat, d: nat)
    requires Initial(w0) && m in w0.threads && d in w0.threads && m != d
    ensures exists w :: Reachable(w0, w) && Quiescent(w) && w.s.ready && w.s.closing && !w.s.open
  {
    hide Reachable, Both;
    var s := w0.s;
    AboutToPublish(w0, m, d);
    SecondGoesOn(w0, m, d, s.(lastError := None), SetReady(0), Idle, [], Begin(Shutdown));
    var s1 := s.(lastError := None, closing := true);
    SecondGoesOn(w0, m, d, s1, SetReady(0), Disarming, [ClosingSet], GO);
    var s2 := s1.(ready := false);
    FirstGoesOn(w0, m, d, s2, SetReady(0), Waiting(Shutdown), [ClosingSet] + [Withdrawn], GO);
    var s3 := s1.(ready := true);
    var log := [ClosingSet] + [Withdrawn] + [Recovered(0)];
    FirstGoesOn(w0, m, d, s3, Releasing, Waiting(Shutdown), log, GO);
    ShutdownEnds(w0, m, d, s3, log);
  }

  lemma AloneIsBoth(w0: System, m: nat, d: nat, s: State, pc: Pc)
    requires Initial(w0) && d in w0.threads && m != d
    ensures Alone(w0, m, s, pc, []) == Both(w0, m, d, s, pc, Idle, [])
  {
    assert w0.threads[m := pc] == w0.threads[m := pc][d := Idle];
  }

  lemma AboutToPublish(w0: System, m: nat, d: nat)
    requires Initial(w0) && m in w0.threads && d in w0.threads && m != d
    ensures Reachable(w0, Both(w0, m, d, w0.s.(lastError := None), SetReady(0), Idle, []))
  {
    hide Reachable, Alone, Both, Transacting, Counting, AdmissionError, Insertion;
    var s := w0.s;
    AloneAtStart(w0, m);
    AloneGoesOn(w0, m, s, Idle, [], Begin(Maintain));
    AloneGoesOn(w0, m, s, Waiting(Maintain), [], GO);
    AloneGoesOn(w0, m, s, Locked(Maintain, 0), [], GO);
    AloneGoesOn(w0, m, s, Running(Maintain, 0), [], Finish(None));
    AloneGoesOn(w0, m, s, Ending(None, 0), [], GO);
    AloneGoesOn(w0, m, s, ClearError(0), [], GO);
    var s' := s.(lastError := None);
    AloneIsBoth(w0, m, d, s', SetReady(0));
  }

  lemma ShutdownEnds(w0: System, m: nat, d: nat, s: State, log: seq<Event>)
    requires Initial(w0) && m != d && Reachable(w0, Both(w0, m, d, s, Idle, Waiting(Shutdown), log)) && s.open && s.ready && s.closing
    ensures exists w :: Reachable(w0, w) && Quiescent(w) && w.s.ready && w.s.closing && !w.s.open
  {
    hide Reachable, Counting, AdmissionError, Insertion, Missed, Maintaining;
    SecondGoesOn(w0, m, d, s, Idle, Waiting(Shutdown), log, GO);
    SecondGoesOn(w0, m, d, s, Idle, Locked(Shutdown, |log|), log, GO);
    SecondGoesOn(w0, m, d, s, Idle, Running(Shutdown, |log|), log, GO);
    var s' := s.(open := false);
    SecondGoesOn(w0, m, d, s', Idle, Releasing, log, GO);
    var w := Both(w0, m, d, s', Idle, Idle, log);
    assert Reachable(w0, w) && Quiescent(w);
  }

  // ----- Which runs miscount -----

  /** Every answer about a number of rows arrives. */
  ghost predicate Counted(schedule: seq<Move>) {
    forall k :: 0 <= k < |schedule| ==> CountedMove(schedule[k].action)
  }

  ghost predicate CountedMove(a: Action) {
    !a.Miscount? && (a.Advance? ==> forall k: nat :: a.counts(k).None?)
  }

  ghost predicate Accounted(log: seq<Event>) {
    forall e :: e in log ==> !e.Miscounted? && (e.Batch? ==> e.missed == 0)
  }

  lemma CountedStep(s: State, pc: Pc, a: Action, free: bool, now: nat)
    requires CountedMove(a)
    ensures Accounted(Step(s, pc, a, free, now).events)
  {
    hide Insertion, FirstFailure, Remove, CountRows, AllRows;
    if pc.Running? && pc.op.Insert? && a.Advance? {
      var t := s.Of(pc.op.signal).rows;
      if pc.op.signal != SPANS {
        MissedRule(pc.op.signal, t, pc.op.records, a.counts);
      }
      assert Missed(pc.op.signal, t, pc.op.records, a.counts) == 0;
    }
  }

  lemma {:induction false} CountedRunsAccount(w0: System, schedule: seq<Move>)
    requires Initial(w0) && Counted(schedule)
    ensures Accounted(Run(w0, schedule).log)
  {
    if schedule != [] {
      hide Step;
      var init, move := schedule[..|schedule| - 1], schedule[|schedule| - 1];
      var w := Run(w0, init);
      CountedRunsAccount(w0, init);
      if move.thread in w.threads {
        CountedStep(w.s, w.threads[move.thread], move.action, w.holder.None?, |w.log|);
      }
    }
  }

  /** In every interleaving in which all counts are answered, the counters account for every row. */
  lemma CountedRunsConserve(w0: System, schedule: seq<Move>)
    requires Initial(w0) && Counted(schedule) && Run(w0, schedule).holder.None?
    ensures forall k: SignalId :: Balance(Run(w0, schedule).s.Of(k)) == Balance(w0.s.Of(k))
  {
    var log := Run(w0, schedule).log;
    Conservation(w0, schedule);
    CountedRunsAccount(w0, schedule);
    forall k: SignalId ensures Lost(log, k) == 0 && Unseen(log, k) == 0 {
      LostRule(log, k);
      UnseenRule(log, k);
    }
  }

  /** Counters that are off by so many lost and so many unseen rows of one signal. */
  predicate OffBy(w0: System, w: System, k: SignalId, lost: nat, unseen: nat) {
    && Lost(w.log, k) == lost && Unseen(w.log, k) == unseen
    && Balance(w.s.Of(k)) == Balance(w0.s.Of(k)) - lost + unseen
  }

  /** What a retention statement deletes can leave uncounted: the statement succeeds and its count fails. */
  lemma RowsCanBeLost(w0: System, m: nat, signal: SignalId, gone: Table)
    requires Initial(w0) && m in w0.threads && gone <= w0.s.Of(signal).rows
    ensures exists w :: Reachable(w0, w) && Quiescent(w) && OffBy(w0, w, signal, |gone|, 0)
  {
    assert Part(OnlyRows(signal, gone), signal) == gone;
    LostRun(w0, m, OnlyRows(signal, gone));
  }

  lemma LostRun(w0: System, m: nat, rows: Rows)
    requires Initial(w0) && m in w0.threads && Within(rows, w0.s) && OneSignal(rows)
    ensures exists w :: Reachable(w0, w) && Quiescent(w) && forall k: SignalId :: OffBy(w0, w, k, |Part(rows, k)|, 0)
  {
    hide OneSignal, Reachable, Remove, CountRows, AllRows, Checking, Transacting, Counting, Leaving, OffBy, Alone, AdmissionError;
    var s, s1 := w0.s, Remove(w0.s, rows);
    AloneAtStart(w0, m);
    AloneGoesOn(w0, m, s, Idle, [], Begin(Maintain));
    AloneGoesOn(w0, m, s, Waiting(Maintain), [], GO);
    LocksMaintenance(s, 0);
    AloneGoesOn(w0, m, s, Locked(Maintain, 0), [], GO);
    AloneGoesOn(w0, m, s, Running(Maintain, 0), [], Delete(rows));
    MiscountsDeleted(s1, rows);
    AloneGoesOn(w0, m, s1, CountDeleted(rows, 0), [Removed(rows)], Miscount);
    LostRunEnds(w0, m, s1, rows);
  }

  lemma LocksMaintenance(s: State, since: nat)
    requires s.open && !s.closing
    ensures Checking(s, Locked(Maintain, since), GO) == Effect(s, Running(Maintain, since), [])
  {
  }

  lemma MiscountsDeleted(s: State, rows: Rows)
    requires OneSignal(rows)
    ensures Counting(s, CountDeleted(rows, 0), Miscount) == Effect(s, Ending(Some(CountFailed(0, 0)), 0), [Miscounted(rows)])
  {
  }

  /** Recording an error and giving the writer back. */
  lemma RecordsInRun(w0: System, m: nat, s: State, e: Error, log: seq<Event>)
    requires Reachable(w0, Alone(w0, m, s, RecordError(e), log))
    ensures Reachable(w0, Alone(w0, m, SetOperationalError(s, e), Idle, Longer(log, [Withdrawn])))
  {
    hide Reachable, Alone, Outside, Checking, Working, Longer;
    AloneGoesOn(w0, m, s, RecordError(e), log, GO);
    NothingLonger(log);
    AloneGoesOn(w0, m, s.(lastError := Some(e)), SetNotReady, log, GO);
    var log1 := Longer(log, [Withdrawn]);
    NothingLonger(log1);
    AloneGoesOn(w0, m, SetOperationalError(s, e), Releasing, log1, GO);
  }

  lemma NothingLonger(log: seq<Event>)
    ensures Longer(log, []) == log
  {
  }

  lemma LostRunEnds(w0: System, m: nat, s: State, rows: Rows)
    requires Initial(w0) && m in w0.threads && Within(rows, w0.s) && s == Remove(w0.s, rows)
    requires Reachable(w0, Alone(w0, m, s, Ending(Some(CountFailed(0, 0)), 0), [Removed(rows)] + [Miscounted(rows)]))
    ensures exists w :: Reachable(w0, w) && Quiescent(w) && forall k: SignalId :: OffBy(w0, w, k, |Part(rows, k)|, 0)
  {
    hide Reachable, Alone, Outside, Checking, Working, Remove, OffBy;
    var e := CountFailed(0, 0);
    var log := [Removed(rows)] + [Miscounted(rows)];
    assert !s.closing by { LostState(w0, m, rows, e); }
    AloneGoesOn(w0, m, s, Ending(Some(e), 0), log, GO);
    RecordsInRun(w0, m, s, e, log + [FailureMet]);
    LostState(w0, m, rows, e);
  }

  lemma LostState(w0: System, m: nat, rows: Rows, e: Error)
    requires Initial(w0) && Within(rows, w0.s)
    ensures !Remove(w0.s, rows).closing
    ensures var log := [Removed(rows)] + [Miscounted(rows)] + [FailureMet] + [Withdrawn];
      var w := Alone(w0, m, SetOperationalError(Remove(w0.s, rows), e), Idle, log);
      Quiescent(w) && forall k: SignalId :: OffBy(w0, w, k, |Part(rows, k)|, 0)
  {
    hide Lost, Unseen, Balance;
    var log := [Removed(rows)] + [Miscounted(rows)] + [FailureMet] + [Withdrawn];
    var s := SetOperationalError(Remove(w0.s, rows), e);
    forall k: SignalId ensures OffBy(w0, Alone(w0, m, s, Idle, log), k, |Part(rows, k)|, 0) {
      RemoveBalance(w0.s, rows, k);
      assert s.Of(k) == Remove(w0.s, rows).Of(k);
      LostInLog(rows, k);
    }
  }

  lemma LostInLog(rows: Rows, k: SignalId)
    ensures var log := [Removed(rows)] + [Miscounted(rows)] + [FailureMet] + [Withdrawn];
      Lost(log, k) == |Part(rows, k)| && Unseen(log, k) == 0
  {
    hide Replay, Apply;
    var none := Rows({}, {}, {});
    assert [] + [Removed(rows)] == [Removed(rows)];
    AppendEvent(none, [], Removed(rows));
    AppendEvent(none, [Removed(rows)], Miscounted(rows));
    AppendEvent(none, [Removed(rows)] + [Miscounted(rows)], FailureMet);
    AppendEvent(none, [Removed(rows)] + [Miscounted(rows)] + [FailureMet], Withdrawn);
  }

  /** A step with a database whose counts all fail. */
  const BLIND := Advance(Disk(0, 0, FREE_DISK_FLOOR + REQUEST_RESERVE, 0), k => None, k => Some(Canceled))

  lemma {:induction false} SilentLogs(t: Table, records: seq<Record>)
    ensures LogTransaction(t, records, BLIND.sql) == Done(InsertAll(t, records))
  {
    if records != [] {
      SilentLogs(t, records[..|records| - 1]);
    }
  }

  /** Such an insert stores the whole batch and counts nothing of it. */
  lemma BlindInsert(s: State, records: seq<Record>)
    ensures var t := s.logs.rows;
      var missed := |NewAmong(t, records, |records|)|;
      && Transacting(s, Insert(LOGS, records), BLIND.sql, BLIND.counts)
           == Effect(s.(logs := s.logs.(rows := InsertAll(t, records))), CountInserted(LOGS, 0), [Batch(LOGS, records, missed)])
      && |InsertAll(t, records)| == |t| + missed
  {
    hide Transaction, LogTransaction, Overlooked, NewAmong, WriteFailed;
    var t := s.logs.rows;
    SilentInsertion(t, records);
    BlindlyMissed(t, records);
    MissedRule(LOGS, t, records, BLIND.counts);
  }

  lemma SilentInsertion(t: Table, records: seq<Record>)
    ensures Insertion(LOGS, t, records, BLIND.sql) == Done(InsertAll(t, records))
  {
    SilentLogs(t, records);
  }

  lemma BlindlyMissed(t: Table, records: seq<Record>)
    ensures Missed(LOGS, t, records, BLIND.counts) == |NewAmong(t, records, |records|)|
  {
    hide IsNew;
    assert Overlooked(t, records, |records|, BLIND.counts) == NewAmong(t, records, |records|);
  }

  /** The new rows of any log batch can be stored uncounted: the insert commits and its counts fail. */
  lemma RowsCanGoUnseen(w0: System, m: nat, records: seq<Record>)
    requires Initial(w0) && w0.s.ready && m in w0.threads
    ensures exists w :: Reachable(w0, w) && Quiescent(w) && OffBy(w0, w, LOGS, 0, |NewAmong(w0.s.logs.rows, records, |records|)|)
  {
    hide Reachable, Working, Leaving, OffBy, Alone, NewAmong;
    var s, op := w0.s, Insert(LOGS, records);
    assert s.(ready := true) == s;
    AloneAtStart(w0, m);
    AloneGoesOn(w0, m, s, Idle, [], Begin(op));
    AloneGoesOn(w0, m, s, Waiting(op), [], BLIND);
    AloneGoesOn(w0, m, s, Locked(op, 0), [], BLIND);
    AloneGoesOn(w0, m, s, Ready(LOGS, records), [], BLIND);
    UnseenRunEnds(w0, m, records);
  }

  lemma UnseenRunEnds(w0: System, m: nat, records: seq<Record>)
    requires Initial(w0) && m in w0.threads
    requires Reachable(w0, Alone(w0, m, w0.s, Running(Insert(LOGS, records), 0), [Admitted]))
    ensures exists w :: Reachable(w0, w) && Quiescent(w) && OffBy(w0, w, LOGS, 0, |NewAmong(w0.s.logs.rows, records, |records|)|)
  {
    hide Reachable, Alone, Outside, Checking, Transacting, Leaving, OffBy, NewAmong, InsertAll;
    var s := w0.s;
    var s1 := s.(logs := s.logs.(rows := InsertAll(s.logs.rows, records)));
    var missed := |NewAmong(s.logs.rows, records, |records|)|;
    BlindInsert(s, records);
    AloneGoesOn(w0, m, s, Running(Insert(LOGS, records), 0), [Admitted], BLIND);
    var log := [Admitted] + [Batch(LOGS, records, missed)];
    AloneGoesOn(w0, m, s1, CountInserted(LOGS, 0), log, BLIND);
    assert Leaving(s1, Releasing, BLIND) == Effect(s1, Idle, []) by { GivesBack(s1, BLIND); }
    AloneGoesOn(w0, m, s1, Releasing, log, BLIND);
    UnseenState(w0, m, records);
  }

  lemma GivesBack(s: State, a: Action)
    requires a.Advance?
    ensures Leaving(s, Releasing, a) == Effect(s, Idle, [])
  {
  }

  lemma UnseenState(w0: System, m: nat, records: seq<Record>)
    requires Initial(w0)
    ensures var s := w0.s;
      var missed := |NewAmong(s.logs.rows, records, |records|)|;
      var log := [Admitted] + [Batch(LOGS, records, missed)];
      var w := Alone(w0, m, s.(logs := s.logs.(rows := InsertAll(s.logs.rows, records))), Idle, log);
      Quiescent(w) && OffBy(w0, w, LOGS, 0, missed)
  {
    hide NewAmong, InsertAll, Transacting, Lost, Unseen;
    var missed := |NewAmong(w0.s.logs.rows, records, |records|)|;
    BlindInsert(w0.s, records);
    UnseenInLog(records, missed);
  }

  lemma UnseenInLog(records: seq<Record>, missed: nat)
    ensures var log := [Admitted] + [Batch(LOGS, records, missed)]; Lost(log, LOGS) == 0 && Unseen(log, LOGS) == missed
  {
    hide Replay, Apply;
    var none := Rows({}, {}, {});
    assert [] + [Admitted] == [Admitted];
    AppendEvent(none, [], Admitted);
    AppendEvent(none, [Admitted], Batch(LOGS, records, missed));
  }
}
