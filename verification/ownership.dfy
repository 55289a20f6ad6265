/**
 One owner of the database among many processes: Start, a failed Start, Shutdown, Reset and crashes,
 interleaved in any way over one directory.
 */
module Ownership {
  import opened Options

  datatype File = Main | Wal | Shm | Lock

  const DATABASE := [Main, Wal, Shm]

  datatype Goal = Start | Reset

  /** Where one process is. The lock file it has open is an inode, not a name. */
  datatype Phase =
    | Idle
    | Opened(goal: Goal, inode: nat)                  // lock file open, not locked
    | Locked(goal: Goal, inode: nat)                  // owns the lock; open descriptors are inspected
    | Inspecting(inode: nat)                          // Start: the existing schema is inspected
    | Removing(goal: Goal, inode: nat, index: nat)    // deletes DATABASE[index] next
    | Opening(inode: nat)                             // Start: the database is opened next
    | Serving(inode: nat)                             // the database is open read-write
    | Closed(inode: nat)                              // about to unlock; the database is not open
    | Unlocked(inode: nat)                            // about to close the lock file

  datatype System = System(files: map<File, nat>, nextInode: nat, locks: map<nat, nat>, processes: map<nat, Phase>)

  /** Advance carries an answer from outside: whether the next call succeeds, and whether a schema must be replaced. */
  datatype Action = Begin(goal: Goal) | Advance(ok: bool, replace: bool) | Stop | Crash

  /** Opens the lock file by name, creating it when it does not exist. */
  function WithLockFile(w: System): System {
    if Lock in w.files then w else w.(files := w.files[Lock := w.nextInode], nextInode := w.nextInode + 1)
  }

  /** The locks without those of a process on an inode; the last descriptor of a lock releases it. */
  function Release(locks: map<nat, nat>, inode: nat, process: nat): map<nat, nat> {
    if inode in locks && locks[inode] == process then locks - {inode} else locks
  }

  function Moved(w: System, process: nat, phase: Phase): System {
    w.(processes := w.processes[process := phase])
  }

  function Remove(w: System, file: File): System {
    w.(files := w.files - {file})
  }

  function Create(w: System, file: File): System {
    if file in w.files then w else w.(files := w.files[file := w.nextInode], nextInode := w.nextInode + 1)
  }

  /** The next step of a process that is not idle. */
  function Advanced(w: System, p: nat, ok: bool, replace: bool): System
    requires p in w.processes
  {
    match w.processes[p]
    case Idle => w
    case Opened(goal, inode) =>
      if inode in w.locks then Moved(w, p, Idle)
      else Moved(w.(locks := w.locks[inode := p]), p, Locked(goal, inode))
    case Locked(goal, inode) =>
      if !ok then Moved(w, p, Closed(inode))
      else if goal.Start? then Moved(w, p, Inspecting(inode))
      else Moved(w, p, Removing(goal, inode, 0))
    case Inspecting(inode) =>
      if !ok then Moved(w, p, Closed(inode))
      else if replace then Moved(w, p, Removing(Start, inode, 0))
      else Moved(w, p, Opening(inode))
    case Removing(goal, inode, index) =>
      if !ok then Moved(w, p, Closed(inode))
      else if index < |DATABASE| then Moved(Remove(w, DATABASE[index]), p, Removing(goal, inode, index + 1))
      else if goal.Start? then Moved(w, p, Opening(inode))
      else Moved(w, p, Closed(inode))
    case Opening(inode) => if ok then Moved(Create(w, Main), p, Serving(inode)) else Moved(w, p, Closed(inode))
    case Serving(inode) => if ok then w else Moved(w, p, Closed(inode))
    case Closed(inode) => Moved(w.(locks := Release(w.locks, inode, p)), p, Unlocked(inode))
    case Unlocked(inode) => Moved(w, p, Idle)
  }

  /** One step of one process; a step that is not enabled changes nothing. */
  function Next(w: System, p: nat, a: Action): System {
    if p !in w.processes then w
    else
      var phase := w.processes[p];
      match a
      case Begin(goal) =>
        if phase.Idle? then
          var w' := WithLockFile(w);
          Moved(w', p, Opened(goal, w'.files[Lock]))
        else w
      case Advance(ok, replace) => Advanced(w, p, ok, replace)
      case Stop => if phase.Serving? then Moved(w, p, Closed(phase.inode)) else w
      case Crash =>
        if phase.Idle? then w else Moved(w.(locks := Release(w.locks, phase.inode, p)), p, Idle)
  }

  datatype Move = Move(process: nat, action: Action)

  function Run(w: System, schedule: seq<Move>): System {
    if schedule == [] then w
    else
      var move := schedule[|schedule| - 1];
      Next(Run(w, schedule[..|schedule| - 1]), move.process, move.action)
  }

  /** Any files may exist when nobody runs; inodes are not reused. */
  ghost predicate Initial(w: System) {
    && w.locks == map[]
    && (forall f :: f in w.files ==> w.files[f] < w.nextInode)
    && forall p :: p in w.processes ==> w.processes[p].Idle?
  }

  /** The process owns the lock of its inode. */
  predicate Owns(p: Phase) {
    !p.Idle? && !p.Opened? && !p.Unlocked?
  }

  /** The process has the database open read-write, or is deleting or creating its files. */
  predicate Touches(p: Phase) {
    p.Serving? || p.Removing? || p.Opening?
  }

  ghost predicate Inv(w: System) {
    && (forall p :: p in w.processes && !w.processes[p].Idle? ==> Lock in w.files && w.processes[p].inode == w.files[Lock])
    && (forall p :: p in w.processes && Owns(w.processes[p]) ==>
          w.processes[p].inode in w.locks && w.locks[w.processes[p].inode] == p)
  }

  /** Every other process stays where it was. */
  lemma OthersStay(w: System, p: nat, a: Action)
    ensures Next(w, p, a).processes.Keys == w.processes.Keys
    ensures forall q :: q in w.processes && q != p ==> Next(w, p, a).processes[q] == w.processes[q]
  {
    if p in w.processes && a.Advance? { AdvancedOthersStay(w, p, a.ok, a.replace); }
    hide Advanced;
  }

  lemma AdvancedOthersStay(w: System, p: nat, ok: bool, replace: bool)
    requires p in w.processes
    ensures Advanced(w, p, ok, replace).processes.Keys == w.processes.Keys
    ensures forall q :: q in w.processes && q != p ==> Advanced(w, p, ok, replace).processes[q] == w.processes[q]
  {
    hide Release;
  }

  /** The lock file keeps its inode, and a process keeps its own until it is idle again. */
  lemma LockFileStays(w: System, p: nat, a: Action)
    requires Inv(w)
    ensures var w' := Next(w, p, a);
      && (Lock in w.files ==> Lock in w'.files && w'.files[Lock] == w.files[Lock])
      && (p in w.processes && !w'.processes[p].Idle? ==> Lock in w'.files && w'.processes[p].inode == w'.files[Lock])
  {
    if p in w.processes && w.processes[p].Removing? && w.processes[p].index < |DATABASE| {
      assert DATABASE[w.processes[p].index] != Lock;
    }
  }

  /** The lock of an inode changes only when a process takes a free one or gives back its own. */
  lemma LocksMove(w: System, p: nat, a: Action)
    requires Inv(w) && p in w.processes
    ensures var w' := Next(w, p, a);
      && (forall i :: i in w.locks && w.locks[i] != p ==> i in w'.locks && w'.locks[i] == w.locks[i])
      && (Owns(w'.processes[p]) ==> w'.processes[p].inode in w'.locks && w'.locks[w'.processes[p].inode] == p)
  {
  }

  lemma InvStep(w: System, p: nat, a: Action)
    requires Inv(w)
    ensures Inv(Next(w, p, a))
    ensures Lock in w.files ==> Lock in Next(w, p, a).files && Next(w, p, a).files[Lock] == w.files[Lock]
  {
    OthersStay(w, p, a);
    LockFileStays(w, p, a);
    if p in w.processes {
      LocksMove(w, p, a);
      hide Next;
      var w' := Next(w, p, a);
      forall q | q in w'.processes && Owns(w'.processes[q])
        ensures w'.processes[q].inode in w'.locks && w'.locks[w'.processes[q].inode] == q
      {
        if q != p { assert w.processes[q] == w'.processes[q]; }
      }
    }
  }

  lemma {:induction false} RunsKeepInv(w: System, schedule: seq<Move>)
    requires Initial(w)
    ensures Inv(Run(w, schedule))
  {
    if schedule != [] {
      var move := schedule[|schedule| - 1];
      RunsKeepInv(w, schedule[..|schedule| - 1]);
      InvStep(Run(w, schedule[..|schedule| - 1]), move.process, move.action);
    }
  }

  /** At most one process has the database open read-write or is replacing its files. */
  lemma SingleOwner(w: System, schedule: seq<Move>, p: nat, q: nat)
    requires Initial(w) && p in Run(w, schedule).processes && q in Run(w, schedule).processes
    requires Touches(Run(w, schedule).processes[p]) && Touches(Run(w, schedule).processes[q])
    ensures p == q
  {
    RunsKeepInv(w, schedule);
  }

  /** Once it exists, the lock file keeps its inode for ever. */
  lemma {:induction false} LockKeepsItsInode(w: System, before: seq<Move>, after: seq<Move>)
    requires Initial(w) && Lock in Run(w, before).files
    ensures Lock in Run(w, before + after).files && Run(w, before + after).files[Lock] == Run(w, before).files[Lock]
  {
    if after == [] {
      assert before + after == before;
    } else {
      var n := |after| - 1;
      LockKeepsItsInode(w, before, after[..n]);
      assert (before + after)[..|before + after| - 1] == before + after[..n];
      RunsKeepInv(w, before + after[..n]);
      InvStep(Run(w, before + after[..n]), after[n].process, after[n].action);
    }
  }

  /** Files are removed only by a process that owns the lock. */
  lemma OnlyTheOwnerRemoves(w: System, schedule: seq<Move>, p: nat, a: Action, f: File)
    requires Initial(w) && f in Run(w, schedule).files && f !in Next(Run(w, schedule), p, a).files
    ensures var e := Run(w, schedule);
      && f != Lock && p in e.processes && e.processes[p].Removing?
      && e.processes[p].inode in e.locks && e.locks[e.processes[p].inode] == p
      && forall q :: q in e.processes && q != p ==> !Touches(e.processes[q])
  {
    RunsKeepInv(w, schedule);
    InvStep(Run(w, schedule), p, a);
  }

  /** The process pursues this goal, or has given up its part in it. */
  predicate Pursues(phase: Phase, goal: Goal) {
    match phase
    case Idle => false
    case Opened(g, _) => g == goal
    case Locked(g, _) => g == goal
    case Removing(g, _, _) => g == goal
    case Inspecting(_) => goal.Start?
    case Opening(_) => goal.Start?
    case Serving(_) => goal.Start?
    case _ => true
  }

  /** A process keeps to its goal until it is idle again, so a reset never opens the database. */
  lemma GoalStays(w: System, p: nat, a: Action, goal: Goal)
    requires p in w.processes && Pursues(w.processes[p], goal)
    ensures p in Next(w, p, a).processes
    ensures Next(w, p, a).processes[p].Idle? || Pursues(Next(w, p, a).processes[p], goal)
  {
    hide Release, WithLockFile, Create;
  }

  // ----- The files of an owner -----

  /** A served database has its main file; a process that removes files has removed those before the next one. */
  predicate FilesFor(files: map<File, nat>, phase: Phase) {
    && (phase.Serving? ==> Main in files)
    && (phase.Removing? ==> phase.index <= |DATABASE| && forall i :: 0 <= i < phase.index ==> DATABASE[i] !in files)
  }

  ghost predicate FilesInv(w: System) {
    forall p :: p in w.processes ==> FilesFor(w.files, w.processes[p])
  }

  /** Only a process that touches the database changes its files. */
  lemma FilesStay(w: System, p: nat, a: Action, f: File)
    requires Inv(w) && f != Lock && (p in w.processes ==> !w.processes[p].Removing? && !w.processes[p].Opening?)
    ensures f in w.files <==> f in Next(w, p, a).files
    ensures f in w.files ==> Next(w, p, a).files[f] == w.files[f]
  {
  }

  lemma OwnFiles(w: System, p: nat, a: Action)
    requires p in w.processes && FilesFor(w.files, w.processes[p]) && p in Next(w, p, a).processes
    ensures FilesFor(Next(w, p, a).files, Next(w, p, a).processes[p])
  {
    hide Release;
  }

  lemma FilesInvStep(w: System, p: nat, a: Action)
    requires Inv(w) && FilesInv(w)
    ensures FilesInv(Next(w, p, a))
  {
    OthersStay(w, p, a);
    var w' := Next(w, p, a);
    if p in w.processes { OwnFiles(w, p, a); }
    forall f: File, q | f != Lock && q in w.processes && q != p && Touches(w.processes[q])
      ensures f in w.files <==> f in w'.files
    {
      FilesStay(w, p, a, f);
    }
    hide Next;
    forall q | q in w'.processes ensures FilesFor(w'.files, w'.processes[q]) {
      if q != p {
        assert w'.processes[q] == w.processes[q] && FilesFor(w.files, w.processes[q]);
        assert forall i :: 0 <= i < |DATABASE| ==> DATABASE[i] != Lock;
      }
    }
  }

  lemma {:induction false} RunsKeepFiles(w: System, schedule: seq<Move>)
    requires Initial(w)
    ensures Inv(Run(w, schedule)) && FilesInv(Run(w, schedule))
  {
    RunsKeepInv(w, schedule);
    if schedule != [] {
      var move := schedule[|schedule| - 1];
      RunsKeepFiles(w, schedule[..|schedule| - 1]);
      FilesInvStep(Run(w, schedule[..|schedule| - 1]), move.process, move.action);
    }
  }

  /** The database that a process has open is there, and no step of any process removes, replaces or adds a file of it. */
  lemma ServedFilesStay(w: System, schedule: seq<Move>, p: nat, q: nat, a: Action, f: File)
    requires Initial(w) && p in Run(w, schedule).processes && Run(w, schedule).processes[p].Serving? && f != Lock
    ensures var e := Run(w, schedule);
      && Main in e.files
      && (f in e.files <==> f in Next(e, q, a).files) && (f in e.files ==> Next(e, q, a).files[f] == e.files[f])
  {
    RunsKeepFiles(w, schedule);
    FilesStay(Run(w, schedule), q, a, f);
  }

  /** A process that has removed the last file leaves none behind, and only the lock file remains. */
  lemma RemovalIsComplete(w: System, schedule: seq<Move>, p: nat, f: File)
    requires Initial(w) && p in Run(w, schedule).processes
    requires Run(w, schedule).processes[p].Removing? && Run(w, schedule).processes[p].index == |DATABASE|
    ensures f in Run(w, schedule).files <==> f == Lock
  {
    RunsKeepFiles(w, schedule);
    assert Main == DATABASE[0] && Wal == DATABASE[1] && Shm == DATABASE[2];
  }

  /** No two names are one file, and the next inode is new. */
  ghost predicate Apart(w: System) {
    && (forall f, g :: f in w.files && g in w.files && f != g ==> w.files[f] != w.files[g])
    && forall f :: f in w.files ==> w.files[f] < w.nextInode
  }

  predicate Created(w: System, w': System, f: File) {
    f !in w.files && w'.files == w.files[f := w.nextInode] && w'.nextInode == w.nextInode + 1
  }

  predicate Removed(w: System, w': System, f: File) {
    w'.files == w.files - {f} && w'.nextInode == w.nextInode
  }

  /** A step changes at most one file. */
  lemma OneFileChanges(w: System, p: nat, a: Action)
    ensures var w' := Next(w, p, a);
      (w'.files == w.files && w'.nextInode == w.nextInode) || Created(w, w', Lock) || Created(w, w', Main) || exists f :: Removed(w, w', f)
  {
    hide Release;
    if p in w.processes && w.processes[p].Removing? && a.Advance? && a.ok && w.processes[p].index < |DATABASE| {
      assert Removed(w, Next(w, p, a), DATABASE[w.processes[p].index]);
    }
  }

  lemma ApartStep(w: System, p: nat, a: Action)
    requires Apart(w)
    ensures Apart(Next(w, p, a))
  {
    OneFileChanges(w, p, a);
    hide Next;
  }

  /** Without hard links at the start there never are any. */
  lemma {:induction false} FilesStayApart(w: System, schedule: seq<Move>)
    requires Initial(w) && Apart(w)
    ensures Apart(Run(w, schedule))
  {
    if schedule != [] {
      var move := schedule[|schedule| - 1];
      FilesStayApart(w, schedule[..|schedule| - 1]);
      ApartStep(Run(w, schedule[..|schedule| - 1]), move.process, move.action);
    }
  }

  // ----- Why the lock file is never removed -----

  /** The same step for a program that also removes the lock file once it has unlocked it. */
  function UnlinkingNext(w: System, p: nat, a: Action): System {
    if p in w.processes && w.processes[p].Unlocked? && a.Advance? then Remove(Next(w, p, a), Lock) else Next(w, p, a)
  }

  function UnlinkingRun(w: System, schedule: seq<Move>): System {
    if schedule == [] then w
    else
      var move := schedule[|schedule| - 1];
      UnlinkingNext(UnlinkingRun(w, schedule[..|schedule| - 1]), move.process, move.action)
  }

  ghost predicate TwoOwners(w: System) {
    exists p, q :: p != q && p in w.processes && q in w.processes && Touches(w.processes[p]) && Touches(w.processes[q])
  }

  /** Three processes, the inode of the lock file's name, and whether inode 0 is locked. */
  ghost predicate Scene(w: System, p0: Phase, p1: Phase, p2: Phase, lock: Option<nat>, locked: bool) {
    && 0 in w.processes && 1 in w.processes && 2 in w.processes
    && w.processes[0] == p0 && w.processes[1] == p1 && w.processes[2] == p2
    && (if lock.Some? then Lock in w.files && w.files[Lock] == lock.value else Lock !in w.files && w.nextInode == 1)
    && (0 in w.locks <==> locked) && 1 !in w.locks
  }

  /**
   Removing the lock file after unlocking would break single ownership: a process that had opened the
   old file locks the old inode, and one that comes later locks a new one.
   */
  lemma UnlinkingAllowsTwoOwners()
    ensures exists w: System, schedule: seq<Move> :: Initial(w) && TwoOwners(UnlinkingRun(w, schedule))
  {
    hide UnlinkingRun;
    var w := System(map[Lock := 0], 1, map[], map[0 := Idle, 1 := Idle, 2 := Idle]);
    var s, e := FirstUnlocks(w);
    s, e := SecondLocksTheOldFile(w, s, e);
    s, e := ThirdLocksANewFile(w, s, e);
    assert Touches(e.processes[1]) && Touches(e.processes[2]);
    assert Initial(w) && TwoOwners(UnlinkingRun(w, s));
  }

  /** Process 0 owns inode 0 and unlocks it; meanwhile process 1 has opened the same file. */
  lemma FirstUnlocks(w: System) returns (s: seq<Move>, e: System)
    requires Scene(w, Idle, Idle, Idle, Some(0), false) && w.nextInode == 1
    ensures e == UnlinkingRun(w, s) && e.nextInode == 1
    ensures Scene(e, Unlocked(0), Opened(Reset, 0), Idle, Some(0), false)
  {
    s, e := Extend(w, [], w, 0, Begin(Start));
    s, e := Extend(w, s, e, 0, Advance(true, false));
    assert Scene(e, Locked(Start, 0), Idle, Idle, Some(0), true);
    s, e := Extend(w, s, e, 1, Begin(Reset));
    s, e := Extend(w, s, e, 0, Advance(false, false));
    assert Scene(e, Closed(0), Opened(Reset, 0), Idle, Some(0), true) && e.locks[0] == 0;
    s, e := Extend(w, s, e, 0, Advance(true, false));
  }

  /** Process 1 locks inode 0, and process 0 removes the name. */
  lemma SecondLocksTheOldFile(w: System, before: seq<Move>, e0: System) returns (s: seq<Move>, e: System)
    requires e0 == UnlinkingRun(w, before) && e0.nextInode == 1
    requires Scene(e0, Unlocked(0), Opened(Reset, 0), Idle, Some(0), false)
    ensures e == UnlinkingRun(w, s)
    ensures Scene(e, Idle, Removing(Reset, 0, 0), Idle, None, true)
  {
    s, e := Extend(w, before, e0, 1, Advance(true, false));
    s, e := Extend(w, s, e, 1, Advance(true, false));
    assert Scene(e, Unlocked(0), Removing(Reset, 0, 0), Idle, Some(0), true) && e.nextInode == 1;
    s, e := Extend(w, s, e, 0, Advance(true, false));
  }

  /** Process 2 creates and locks inode 1. */
  lemma ThirdLocksANewFile(w: System, before: seq<Move>, e0: System) returns (s: seq<Move>, e: System)
    requires e0 == UnlinkingRun(w, before)
    requires Scene(e0, Idle, Removing(Reset, 0, 0), Idle, None, true)
    ensures e == UnlinkingRun(w, s)
    ensures 1 in e.processes && 2 in e.processes && e.processes[1].Removing? && e.processes[2].Removing?
  {
    s, e := Extend(w, before, e0, 2, Begin(Reset));
    assert Scene(e, Idle, Removing(Reset, 0, 0), Opened(Reset, 1), Some(1), true);
    s, e := Extend(w, s, e, 2, Advance(true, false));
    s, e := Extend(w, s, e, 2, Advance(true, false));
  }

  lemma Extend(w: System, schedule: seq<Move>, e: System, p: nat, a: Action) returns (schedule': seq<Move>, e': System)
    requires e == UnlinkingRun(w, schedule)
    ensures e' == UnlinkingNext(e, p, a) == UnlinkingRun(w, schedule')
  {
    schedule' := schedule + [Move(p, a)];
    assert schedule'[..|schedule|] == schedule;
    e' := UnlinkingNext(e, p, a);
  }
}
