/** The context-aware mutex around the single writer: a channel of one permit. */
module WriterLock {
  /** Where one goroutine is; everything from Taken on has put the permit into the channel. */
  datatype Phase =
    | Outside
    | Selecting     // its context was alive; waits for the channel or the context
    | Taken         // holds the permit; the context is asked again
    | Undoing       // the context had ended; gives the permit back
    | Failed        // returns an error
    | Holding       // LockContext has returned without an error

  datatype Thread = Thread(phase: Phase, canceled: bool)

  datatype System = System(permits: nat, threads: map<nat, Thread>)

  /** Choose is the select: it may take the permit or see the context end, whichever is possible. */
  datatype Action = Lock | Cancel | Choose(take: bool) | Recheck | Undo | Return | Unlock

  function StepOf(permits: nat, t: Thread, a: Action): (nat, Thread) {
    match (t.phase, a)
    case (_, Cancel) => (permits, t.(canceled := true))
    case (Outside, Lock) => (permits, t.(phase := if t.canceled then Failed else Selecting))
    case (Selecting, Choose(take)) =>
      if take && permits == 0 then (1, t.(phase := Taken))
      else if !take && t.canceled then (permits, t.(phase := Failed))
      else (permits, t)
    case (Taken, Recheck) => (permits, t.(phase := if t.canceled then Undoing else Holding))
    case (Undoing, Undo) => (0, t.(phase := Failed))
    case (Failed, Return) => (permits, t.(phase := Outside))
    case (Holding, Unlock) => (0, t.(phase := Outside))
    case _ => (permits, t)
  }

  function Next(w: System, t: nat, a: Action): System {
    if t !in w.threads then w
    else
      var (permits, thread) := StepOf(w.permits, w.threads[t], a);
      System(permits, w.threads[t := thread])
  }

  datatype Move = Move(thread: nat, action: Action)

  function Run(w: System, schedule: seq<Move>): System {
    if schedule == [] then w
    else
      var move := schedule[|schedule| - 1];
      Next(Run(w, schedule[..|schedule| - 1]), move.thread, move.action)
  }

  ghost predicate Initial(w: System) {
    w.permits == 0 && forall t :: t in w.threads ==> w.threads[t].phase.Outside?
  }

  predicate HasPermit(p: Phase) {
    p.Taken? || p.Undoing? || p.Holding?
  }

  /** The channel holds the permit of exactly one goroutine, or nothing. */
  ghost predicate Inv(w: System) {
    && w.permits <= 1
    && (w.permits == 1 <==> exists t :: t in w.threads && HasPermit(w.threads[t].phase))
    && forall s, t :: s in w.threads && t in w.threads && HasPermit(w.threads[s].phase) && HasPermit(w.threads[t].phase) ==> s == t
  }

  lemma InvStep(w: System, t: nat, a: Action)
    requires Inv(w)
    ensures Inv(Next(w, t, a))
  {
    if t in w.threads {
      var w' := Next(w, t, a);
      assert forall s :: s in w.threads && s != t ==> w'.threads[s] == w.threads[s];
      if HasPermit(w.threads[t].phase) || HasPermit(w'.threads[t].phase) {
        assert forall s :: s in w.threads && s != t ==> !HasPermit(w.threads[s].phase);
      }
      if w'.permits == 1 && w.permits == 1 && !HasPermit(w.threads[t].phase) {
        var s :| s in w.threads && HasPermit(w.threads[s].phase);
        assert HasPermit(w'.threads[s].phase);
      }
    }
  }

  lemma {:induction false} RunsKeepInv(w: System, schedule: seq<Move>)
    requires Initial(w)
    ensures Inv(Run(w, schedule))
  {
    if schedule != [] {
      var move := schedule[|schedule| - 1];
      RunsKeepInv(w, schedule[..|schedule| - 1]);
      InvStep(Run(w, schedule[..|schedule| - 1]), move.thread, move.action);
    }
  }

  /**
   At most one goroutine holds the writer, a goroutine that returns an error has no permit, and once
   nobody is between taking and giving back the permit the lock is free.
   */
  lemma MutualExclusion(w: System, schedule: seq<Move>)
    requires Initial(w)
    ensures var e := Run(w, schedule);
      && (forall s, t :: s in e.threads && t in e.threads && e.threads[s].phase.Holding? && e.threads[t].phase.Holding? ==> s == t)
      && (e.permits == 0 <==> forall t :: t in e.threads ==> !HasPermit(e.threads[t].phase))
  {
    RunsKeepInv(w, schedule);
  }

  /** Some steps of one goroutine, with nobody else moving. */
  function Own(w: System, t: nat, actions: seq<Action>): System
    decreases |actions|
  {
    if actions == [] then w else Own(Next(w, t, actions[0]), t, actions[1..])
  }

  /** Goroutine t comes to this by no more than three steps of its own. */
  ghost predicate ComesTo(w: System, t: nat, w': System) {
    exists actions: seq<Action> :: |actions| <= 3 && Own(w, t, actions) == w'
  }

  lemma OwnSteps(w: System, t: nat, a: Action, rest: seq<Action>)
    ensures Own(w, t, [a] + rest) == Own(Next(w, t, a), t, rest)
    ensures Own(w, t, [a]) == Next(w, t, a)
  {
    assert ([a] + rest)[1..] == rest && [a][1..] == [];
  }

  lemma OneStep(w: System, t: nat, a: Action)
    ensures ComesTo(w, t, Next(w, t, a))
  {
    OwnSteps(w, t, a, []);
  }

  lemma TwoSteps(w: System, t: nat, a: Action, b: Action)
    ensures ComesTo(w, t, Next(Next(w, t, a), t, b))
  {
    OwnSteps(w, t, a, [b]);
    OwnSteps(Next(w, t, a), t, b, []);
    assert Own(w, t, [a] + [b]) == Next(Next(w, t, a), t, b);
  }

  lemma ThreeSteps(w: System, t: nat, a: Action, b: Action, c: Action)
    ensures ComesTo(w, t, Next(Next(Next(w, t, a), t, b), t, c))
  {
    OwnSteps(w, t, a, [b] + [c]);
    OwnSteps(Next(w, t, a), t, b, [c]);
    OwnSteps(Next(Next(w, t, a), t, b), t, c, []);
    assert Own(w, t, [a] + ([b] + [c])) == Next(Next(Next(w, t, a), t, b), t, c);
  }

  /** Only a canceled goroutine gives the permit back early or fails. */
  ghost predicate FailsCanceled(w: System) {
    forall t :: t in w.threads && (w.threads[t].phase.Undoing? || w.threads[t].phase.Failed?) ==> w.threads[t].canceled
  }

  lemma {:induction false} RunsFailCanceled(w: System, schedule: seq<Move>)
    requires Initial(w)
    ensures FailsCanceled(Run(w, schedule))
  {
    if schedule != [] {
      RunsFailCanceled(w, schedule[..|schedule| - 1]);
    }
  }

  /**
   Nobody is trapped behind the writer. In every interleaving a goroutine whose context has ended gets
   out of the lock by its own steps, whoever holds the writer, and leaves no permit behind; and one
   whose context is alive gets the writer by its own steps when it is free.
   */
  lemma NobodyIsTrapped(w: System, schedule: seq<Move>, t: nat)
    requires Initial(w) && t in Run(w, schedule).threads
    ensures var e := Run(w, schedule);
      var thread := e.threads[t];
      && (thread.canceled && !thread.phase.Outside? && !thread.phase.Holding? ==>
            ComesTo(e, t, System(if HasPermit(thread.phase) then 0 else e.permits, e.threads[t := Thread(Outside, true)])))
      && (!thread.canceled && !thread.phase.Holding? && (e.permits == 0 || HasPermit(thread.phase)) ==>
            ComesTo(e, t, System(1, e.threads[t := Thread(Holding, false)])))
  {
    var e := Run(w, schedule);
    RunsKeepInv(w, schedule);
    RunsFailCanceled(w, schedule);
    var thread := e.threads[t];
    if thread.canceled && !thread.phase.Outside? && !thread.phase.Holding? {
      GetsOut(e, t);
    } else if !thread.canceled && !thread.phase.Holding? && (e.permits == 0 || HasPermit(thread.phase)) {
      GetsIn(e, t);
    }
  }

  lemma GetsOut(e: System, t: nat)
    requires t in e.threads && e.threads[t].canceled && !e.threads[t].phase.Outside? && !e.threads[t].phase.Holding?
    ensures ComesTo(e, t, System(if HasPermit(e.threads[t].phase) then 0 else e.permits, e.threads[t := Thread(Outside, true)]))
  {
    hide Own, ComesTo;
    match e.threads[t].phase
    case Selecting =>
      TwoSteps(e, t, Choose(false), Return);
      assert Next(e, t, Choose(false)).threads == e.threads[t := Thread(Failed, true)];
      assert e.threads[t := Thread(Failed, true)][t := Thread(Outside, true)] == e.threads[t := Thread(Outside, true)];
    case Taken =>
      ThreeSteps(e, t, Recheck, Undo, Return);
      assert Next(e, t, Recheck) == System(e.permits, e.threads[t := Thread(Undoing, true)]);
      assert Next(Next(e, t, Recheck), t, Undo) == System(0, e.threads[t := Thread(Failed, true)]);
      assert e.threads[t := Thread(Failed, true)][t := Thread(Outside, true)] == e.threads[t := Thread(Outside, true)];
    case Undoing =>
      TwoSteps(e, t, Undo, Return);
      assert Next(e, t, Undo).threads == e.threads[t := Thread(Failed, true)];
      assert e.threads[t := Thread(Failed, true)][t := Thread(Outside, true)] == e.threads[t := Thread(Outside, true)];
    case Failed =>
      OneStep(e, t, Return);
  }

  lemma GetsIn(e: System, t: nat)
    requires Inv(e) && FailsCanceled(e) && t in e.threads && !e.threads[t].canceled && !e.threads[t].phase.Holding?
    requires e.permits == 0 || HasPermit(e.threads[t].phase)
    ensures ComesTo(e, t, System(1, e.threads[t := Thread(Holding, false)]))
  {
    hide Own, ComesTo;
    match e.threads[t].phase
    case Outside =>
      ThreeSteps(e, t, Lock, Choose(true), Recheck);
      assert Next(e, t, Lock) == System(0, e.threads[t := Thread(Selecting, false)]);
      assert Next(Next(e, t, Lock), t, Choose(true)) == System(1, e.threads[t := Thread(Taken, false)]);
      assert e.threads[t := Thread(Taken, false)][t := Thread(Holding, false)] == e.threads[t := Thread(Holding, false)];
    case Selecting =>
      TwoSteps(e, t, Choose(true), Recheck);
      assert Next(e, t, Choose(true)) == System(1, e.threads[t := Thread(Taken, false)]);
      assert e.threads[t := Thread(Taken, false)][t := Thread(Holding, false)] == e.threads[t := Thread(Holding, false)];
    case Taken =>
      OneStep(e, t, Recheck);
  }

  /** What the context answers when it is asked on entry, by the select, and after the permit is taken. */
  datatype Context = Context(entry: bool, select: bool, after: bool)

  class ContextMutex {
    var held: bool

    constructor ()
      ensures !held
    {
      held := false;
    }

    /** Returns when the lock is free or the context ends; an error leaves the lock as it was. */
    method LockContext(ended: Context, preferContext: bool) returns (ok: bool)
      requires !held || ended.entry || ended.select
      modifies this
      ensures ok ==> !old(held) && held && !ended.entry && !ended.after
      ensures !ok ==> held == old(held) && (ended.entry || ended.select || ended.after)
      ensures !old(held) && !(ended.select && preferContext) ==> (ok <==> !ended.entry && !ended.after)
    {
      if ended.entry { return false; }
      if !held && !(ended.select && preferContext) {
        held := true;
        if ended.after {
          Unlock();
          return false;
        }
        return true;
      }
      return false;
    }

    method Unlock()
      requires held
      modifies this
      ensures !held
    {
      held := false;
    }
  }
}
