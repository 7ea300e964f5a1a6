/** Handlers of many requests running at once, each holding the locks of its paths: the steps of
    a handler interleave freely with the steps of all others. */
module Interleaving {
  import opened Wrappers
  import opened Bytes
  import opened Paths
  import opened Like
  import opened Sorting
  import opened Tables
  import opened Disk
  import opened Handlers
  import opened Store
  import opened Agreement
  import PathLocker

  type Tid = nat

  datatype Task =
    | Changing(path: Path, mutation: Mutation, base: nat)
    | Erasing(path: Path)
    | MakingDir(path: Path)
    | Carrying(from: Path, to: Path)

  /** Where a handler is. before is what the disk held when the handler changed it; recorded
      tells whether a version was recorded. */
  datatype Phase =
    | Waiting
    | Holding
    | Resolved(head: FileHead)
    | OnDisk(head: FileHead, before: Data)
    | ReadBack(head: FileHead, before: Data, full: Data)
    | OffDisk(size: nat)
    | DirMade
    | MovedNode
    | Refused
    | Finished(head: FileHead, reply: Reply, recorded: bool)
    | Released(head: FileHead, reply: Reply, recorded: bool)

  /** The reply is known. */
  predicate Answered(ph: Phase)
  {
    ph.Finished? || ph.Released?
  }

  /** held counts the locks of the plan that the handler has. */
  datatype Thread = Thread(task: Task, held: nat, phase: Phase)

  datatype System = System(store: State, locks: map<Path, Tid>, threads: seq<Thread>)

  predicate Touches(task: Task, p: Path)
  {
    if task.Carrying? then p == task.from || p == task.to else p == task.path
  }

  ghost predicate NamedTask(task: Task)
  {
    forall p :: Touches(task, p) ==> p != ""
  }

  /** The paths a handler locks, in lock order. */
  function Plan(task: Task): (plan: seq<Path>)
    ensures |plan| >= 1
  {
    if !task.Carrying? then [task.path]
    else if task.from == task.to then [task.from]
    else if Before(task.from, task.to) then [task.from, task.to]
    else [task.to, task.from]
  }

  lemma PlanCovers(task: Task, p: Path)
    ensures p in Plan(task) <==> Touches(task, p)
  { }

  /** Between taking the last lock and having nothing left to do. */
  predicate Inside(ph: Phase)
  {
    !ph.Waiting? && !Answered(ph)
  }

  /** Between the change on disk and the transaction that records it, or the change back. */
  predicate MidWrite(ph: Phase)
  {
    ph.OnDisk? || ph.ReadBack? || ph.OffDisk? || ph.MovedNode? || ph.Refused?
  }

  ghost function Decide(s: State, p: Path, m: Mutation, base: nat, e: Env): (State, Phase)
  {
    if Malformed(m) then (s, Finished(NO_HEAD, Failed, false))
    else
      var head := ResolveHead(s, p);
      if Stale(head, base) then
        var (s', r) := Conflict(s, p, m, base, head, e);
        (s', Finished(head, r, false))
      else if NothingToDo(s.disk, p, m, head) then
        (s, Finished(head, Accepted(head.version, ReplySize(m, head.size)), false))
      else (s, Resolved(head))
  }

  ghost function WriteDisk(s: State, p: Path, m: Mutation, head: FileHead, e: Env): (State, Phase)
  {
    if !e.diskOk || Malformed(m) then (s, Finished(head, Failed, false))
    else
      var (d, ok) := MutateFile(s.disk, p, m, e.wroteAt);
      (s.(disk := d), if ok then OnDisk(head, BytesAt(s.disk, p)) else Finished(head, Failed, false))
  }

  ghost function RecordChange(s: State, p: Path, m: Mutation, head: FileHead, full: Data, e: Env): (State, Phase)
  {
    var r := Transact(s.db, SaveOp(p, m, head.present, full, e.now), e.tx);
    if r.None? then (s, Finished(head, Failed, false))
    else (s.(db := r.value.0), Finished(head, Accepted(r.value.1, ReplySize(m, |full|)), true))
  }

  ghost function ChangeStep(s: State, p: Path, m: Mutation, base: nat, ph: Phase, e: Env): (State, Phase)
  {
    match ph
    case Holding => Decide(s, p, m, base, e)
    case Resolved(head) => WriteDisk(s, p, m, head, e)
    case OnDisk(head, before) =>
      if m.Put? then (s, ReadBack(head, before, m.data))
      else if e.readOk then (s, ReadBack(head, before, BytesAt(s.disk, p)))
      else (s, Finished(head, Failed, false))
    case ReadBack(head, _, full) => RecordChange(s, p, m, head, full, e)
    case _ => (s, ph)
  }

  ghost function EraseStep(s: State, p: Path, ph: Phase, e: Env): (State, Phase)
  {
    match ph
    case Holding =>
      var d := RemoveNode(s.disk, p);
      if !e.diskOk || d.None? then (s, Finished(NO_HEAD, Failed, false))
      else (s.(disk := d.value), OffDisk(if p in s.db.meta then s.db.meta[p].size else 0))
    case OffDisk(size) =>
      var r := Transact(s.db, Remove(p, size, e.now), e.tx);
      if r.None? then (s, Finished(NO_HEAD, Failed, false))
      else (s.(db := r.value.0), Finished(NO_HEAD, Accepted(r.value.1, None), true))
    case _ => (s, ph)
  }

  ghost function MakeDirStep(s: State, p: Path, ph: Phase, e: Env): (State, Phase)
  {
    match ph
    case Holding =>
      var d := MakeDirs(s.disk, Ancestors(p) + {p});
      if !e.diskOk || d.None? then (s, Finished(NO_HEAD, Failed, false)) else (s.(disk := d.value), DirMade)
    case DirMade =>
      if e.tx == [] || !e.tx[0].Clean? then (s, Finished(NO_HEAD, Failed, false))
      else (s.(db := s.db.(meta := s.db.meta[p := DIR_META])), Finished(NO_HEAD, Accepted(0, None), false))
    case _ => (s, ph)
  }

  /** The disk is changed, the tables follow or refuse, and then the disk is changed back. */
  ghost function CarryStep(s: State, from: Path, to: Path, ph: Phase, e: Env): (State, Phase)
  {
    match ph
    case Holding =>
      if from == to then (s, Finished(NO_HEAD, Accepted(0, None), false))
      else if !e.diskOk then (s, Finished(NO_HEAD, Failed, false))
      else
        var (d, ok) := RenameNode(s.disk, from, to);
        (s.(disk := d), if ok then MovedNode else Finished(NO_HEAD, Failed, false))
    case MovedNode =>
      var r := Transact(s.db, Rename(from, to), e.tx);
      if r.None? then (s, Refused) else (s.(db := r.value.0), Finished(NO_HEAD, Accepted(0, None), false))
    case Refused =>
      (if e.revertOk then s.(disk := RenameNode(s.disk, to, from).0) else s, Finished(NO_HEAD, Failed, false))
    case _ => (s, ph)
  }

  /** The step of a handler that has its locks and is not done. */
  ghost function WorkStep(s: State, task: Task, ph: Phase, e: Env): (State, Phase)
  {
    match task
    case Changing(p, m, base) => ChangeStep(s, p, m, base, ph, e)
    case Erasing(p) => EraseStep(s, p, ph, e)
    case MakingDir(p) => MakeDirStep(s, p, ph, e)
    case Carrying(from, to) => CarryStep(s, from, to, ph, e)
  }

  ghost function Goto(a: System, t: Tid, store: State, phase: Phase): System
    requires t < |a.threads|
  {
    a.(store := store, threads := a.threads[t := a.threads[t].(phase := phase)])
  }

  /** Taking the next lock of the plan; whoever finds it taken waits. */
  ghost function TakeLock(a: System, t: Tid): System
    requires t < |a.threads|
  {
    var th := a.threads[t];
    var plan := Plan(th.task);
    if th.held >= |plan| || plan[th.held] in a.locks then a
    else
      var n := th.held + 1;
      a.(locks := a.locks[plan[th.held] := t],
         threads := a.threads[t := Thread(th.task, n, if n == |plan| then Holding else Waiting)])
  }

  ghost function GiveLock(a: System, t: Tid): System
    requires t < |a.threads| && a.threads[t].phase.Finished?
  {
    var th := a.threads[t];
    var plan := Plan(th.task);
    if th.held == 0 then
      a.(threads := a.threads[t := th.(phase := Released(th.phase.head, th.phase.reply, th.phase.recorded))])
    else if th.held > |plan| then a
    else a.(locks := a.locks - {plan[th.held - 1]}, threads := a.threads[t := th.(held := th.held - 1)])
  }

  /** One step of one handler. */
  ghost function Advance(a: System, t: Tid, e: Env): System
  {
    if t >= |a.threads| || a.threads[t].phase.Released? then a
    else
      var th := a.threads[t];
      if th.phase.Waiting? then TakeLock(a, t)
      else if th.phase.Finished? then GiveLock(a, t)
      else
        var (s, ph) := WorkStep(a.store, th.task, th.phase, e);
        Goto(a, t, s, ph)
  }

  // ---------- locks ----------

  /** The handler as a thread of the lock service: leaving once its work is done. */
  function AsWorker(th: Thread): PathLocker.Worker
  {
    PathLocker.Worker(Plan(th.task), th.held, Answered(th.phase))
  }

  function Workers(threads: seq<Thread>): (ws: seq<PathLocker.Worker>)
    ensures |ws| == |threads| && forall i :: 0 <= i < |ws| ==> ws[i] == AsWorker(threads[i])
  {
    seq(|threads|, i requires 0 <= i < |threads| => AsWorker(threads[i]))
  }

  /** What the lock service sees of the system. */
  function Lockers(a: System): PathLocker.System
  {
    PathLocker.System(Workers(a.threads), a.locks)
  }

  predicate Suits(task: Task, ph: Phase)
  {
    && (ph.Resolved? || ph.OnDisk? || ph.ReadBack? ==> task.Changing?)
    && (ph.OffDisk? ==> task.Erasing?)
    && (ph.DirMade? ==> task.MakingDir?)
    && (ph.MovedNode? || ph.Refused? ==> task.Carrying?)
  }

  /** A handler at work has all its locks, a waiting one not yet, an ended one none. */
  predicate Fits(th: Thread)
  {
    && Suits(th.task, th.phase)
    && th.held <= |Plan(th.task)|
    && (Inside(th.phase) ==> th.held == |Plan(th.task)|)
    && (th.phase.Waiting? ==> th.held < |Plan(th.task)|)
    && (th.phase.Released? ==> th.held == 0)
  }

  ghost predicate LocksOk(a: System)
  {
    PathLocker.Inv(Lockers(a)) && forall t: Tid :: t < |a.threads| ==> Fits(a.threads[t])
  }

  /** A handler that has all its locks. */
  predicate HasAll(th: Thread)
  {
    th.held == |Plan(th.task)|
  }

  lemma OwnsItsPaths(a: System, t: Tid, p: Path)
    requires LocksOk(a) && t < |a.threads| && HasAll(a.threads[t]) && Touches(a.threads[t].task, p)
    ensures p in a.locks && a.locks[p] == t
  {
    PlanCovers(a.threads[t].task, p);
    var w := Lockers(a).workers[t];
    assert w.plan[..w.held] == w.plan;
    assert PathLocker.Holds(w, p);
  }

  lemma NoSharedPath(a: System, t: Tid, u: Tid, p: Path)
    requires LocksOk(a) && t < |a.threads| && u < |a.threads| && t != u
    requires HasAll(a.threads[t]) && HasAll(a.threads[u])
    ensures !(Touches(a.threads[t].task, p) && Touches(a.threads[u].task, p))
  {
    if Touches(a.threads[t].task, p) { OwnsItsPaths(a, t, p); }
    if Touches(a.threads[u].task, p) { OwnsItsPaths(a, u, p); }
  }

  lemma WorkersAfter(threads: seq<Thread>, t: Tid, th: Thread)
    requires t < |threads|
    ensures Workers(threads[t := th]) == Workers(threads)[t := AsWorker(th)]
  { }

  lemma WorkGoesOn(s: State, task: Task, ph: Phase, e: Env)
    requires Inside(ph)
    ensures var ph' := WorkStep(s, task, ph, e).1; Inside(ph') || ph'.Finished?
    ensures Suits(task, ph) ==> Suits(task, WorkStep(s, task, ph, e).1)
  { }

  lemma AdvanceKeepsFit(a: System, t: Tid, e: Env)
    requires t < |a.threads| && Fits(a.threads[t])
    ensures var b := Advance(a, t, e);
      |b.threads| == |a.threads| && b.threads == a.threads[t := b.threads[t]] && Fits(b.threads[t])
  {
    var th := a.threads[t];
    if Inside(th.phase) { WorkGoesOn(a.store, th.task, th.phase, e); }
  }

  /** The lock that a waiting handler wants is free. */
  predicate NextIsFree(a: System, t: Tid)
    requires t < |a.threads|
  {
    var plan := Plan(a.threads[t].task);
    a.threads[t].held < |plan| && plan[a.threads[t].held] !in a.locks
  }

  /** The lock service sees a step of the thread, or nothing. */
  ghost predicate LockerMoves(a: System, t: Tid, b: System)
  {
    || Lockers(b) == Lockers(a)
    || (PathLocker.Enabled(Lockers(a), t) && Lockers(b) == PathLocker.Step(Lockers(a), t))
  }

  lemma TakingIsALockerStep(a: System, t: Tid)
    requires t < |a.threads| && Fits(a.threads[t]) && a.threads[t].phase.Waiting?
    ensures LockerMoves(a, t, TakeLock(a, t))
  {
    var b := TakeLock(a, t);
    if b != a {
      WorkersAfter(a.threads, t, b.threads[t]);
      assert Lockers(b) == PathLocker.Step(Lockers(a), t);
    }
  }

  lemma GivingIsALockerStep(a: System, t: Tid)
    requires t < |a.threads| && Fits(a.threads[t]) && a.threads[t].phase.Finished?
    ensures LockerMoves(a, t, GiveLock(a, t))
  {
    var b := GiveLock(a, t);
    WorkersAfter(a.threads, t, b.threads[t]);
    if a.threads[t].held == 0 {
      assert Workers(b.threads) == Workers(a.threads);
    } else {
      assert Lockers(b) == PathLocker.Step(Lockers(a), t);
    }
  }

  lemma WorkingIsALockerStep(a: System, t: Tid, s: State, ph: Phase)
    requires t < |a.threads| && Fits(a.threads[t]) && Inside(a.threads[t].phase) && (Inside(ph) || ph.Finished?)
    ensures LockerMoves(a, t, Goto(a, t, s, ph))
  {
    var b := Goto(a, t, s, ph);
    WorkersAfter(a.threads, t, b.threads[t]);
    if Inside(ph) {
      assert Workers(b.threads) == Workers(a.threads);
    } else {
      assert Lockers(b) == PathLocker.Step(Lockers(a), t);
    }
  }

  /** Every step of a handler is a step of its thread in the lock service or none at all. */
  lemma HandlersAreLockers(a: System, t: Tid, e: Env)
    requires t < |a.threads| && Fits(a.threads[t])
    ensures LockerMoves(a, t, Advance(a, t, e))
  {
    var th := a.threads[t];
    if th.phase.Waiting? {
      TakingIsALockerStep(a, t);
    } else if th.phase.Finished? {
      GivingIsALockerStep(a, t);
    } else if Inside(th.phase) {
      WorkGoesOn(a.store, th.task, th.phase, e);
      var (s, ph) := WorkStep(a.store, th.task, th.phase, e);
      WorkingIsALockerStep(a, t, s, ph);
    }
  }

  lemma AdvanceKeepsLocks(a: System, t: Tid, e: Env)
    requires LocksOk(a)
    ensures LocksOk(Advance(a, t, e)) && |Advance(a, t, e).threads| == |a.threads|
  {
    if t < |a.threads| {
      AdvanceKeepsFit(a, t, e);
      HandlersAreLockers(a, t, e);
      if Lockers(Advance(a, t, e)) != Lockers(a) { PathLocker.StepKeepsInv(Lockers(a), t); }
    }
  }

  lemma PlanAscends(task: Task)
    ensures PathLocker.Ascending(Plan(task))
  {
    if task.Carrying? && task.from != task.to { BeforeTrichotomy(task.from, task.to); }
  }

  /** The handler is not done and its next step is not waiting for a lock. */
  ghost predicate CanMove(a: System, t: Tid)
  {
    t < |a.threads| && !a.threads[t].phase.Released? && (a.threads[t].phase.Waiting? ==> NextIsFree(a, t))
  }

  /** As long as one handler has not ended, some handler can move. */
  lemma SomeHandlerCanMove(a: System, t: Tid) returns (k: Tid)
    requires LocksOk(a) && t < |a.threads| && !a.threads[t].phase.Released?
    ensures CanMove(a, k)
  {
    if CanMove(a, t) {
      return t;
    }
    assert Fits(a.threads[t]);
    k := PathLocker.SomeoneMoves(Lockers(a), t);
    assert Fits(a.threads[k]);
  }

  // ---------- what the tables keep ----------

  /** The version ResolveFileHead would report now. */
  ghost function VersionOf(t: Tables, p: Path): nat
    requires Dense(t)
  {
    if p in t.meta && t.meta[p].isDir then 0 else |History(t, p)|
  }

  /** What a handler learned under its lock is still so. */
  ghost predicate HeadCurrent(t: Tables, task: Task, head: FileHead)
    requires Dense(t)
  {
    && task.Changing? && !Malformed(task.mutation)
    && head.version == VersionOf(t, task.path)
    && !Stale(head, task.base)
  }

  /** An accepted change that named a base on a path with versions found that base current, and
      answers it only if it recorded nothing; otherwise it answers its successor. */
  predicate ContinuesBase(task: Task, head: FileHead, r: Reply, recorded: bool)
  {
    task.Changing? && r.Accepted? && task.base != 0 && head.version != 0 ==>
      head.version == task.base && r.version == if recorded then task.base + 1 else task.base
  }

  /** The version answered is the one the tables have for the path, the last of its history if
      it was recorded. */
  ghost predicate AnswersTables(t: Tables, task: Task, r: Reply, recorded: bool)
    requires Dense(t)
  {
    task.Changing? && r.Accepted? ==>
      r.version == VersionOf(t, task.path) && (recorded ==> r.version == |History(t, task.path)| >= 1)
  }

  ghost predicate Knows(t: Tables, th: Thread)
    requires Dense(t)
  {
    match th.phase
    case Resolved(head) => HeadCurrent(t, th.task, head)
    case OnDisk(head, _) => HeadCurrent(t, th.task, head)
    case ReadBack(head, _, _) => HeadCurrent(t, th.task, head)
    case Finished(head, r, recorded) =>
      && ContinuesBase(th.task, head, r, recorded)
      && (HasAll(th) ==> AnswersTables(t, th.task, r, recorded))
    case Released(head, r, recorded) => ContinuesBase(th.task, head, r, recorded)
    case _ => true
  }

  ghost predicate Inv(a: System)
  {
    && Recorded(a.store.db)
    && LocksOk(a)
    && forall t: Tid :: t < |a.threads| ==> Knows(a.store.db, a.threads[t])
  }

  /** A path's rows are as they were. */
  ghost predicate SameRows(t: Tables, t': Tables, p: Path)
    requires Dense(t) && Dense(t')
  {
    && (p in t.meta <==> p in t'.meta)
    && (p in t.meta ==> t.meta[p] == t'.meta[p])
    && History(t, p) == History(t', p)
  }

  lemma ExtendedLeaves(t: Tables, p: Path, rec: Record, data: Option<Data>, t': Tables, q: Path)
    requires Dense(t) && Dense(t') && Extended(t, p, rec, data, t') && q != p
    requires q in t'.meta <==> q in t.meta
    requires q in t.meta ==> t'.meta[q] == t.meta[q]
    ensures SameRows(t, t', q)
  {
    assert SameFile(t, q, t', q);
  }

  /** The tables' part of a change. */
  lemma ChangeTables(s: State, p: Path, m: Mutation, base: nat, ph: Phase, e: Env)
    requires Recorded(s.db)
    ensures ChangeStep(s, p, m, base, ph, e).0.db ==
      if ph.ReadBack? && Undisturbed(e.tx, MAX_ATTEMPTS)
      then Body(s.db, SaveOp(p, m, ph.head.present, ph.full, e.now)).value.0 else s.db
  {
    if ph.ReadBack? {
      SaveAppends(s.db, p, m, ph.head.present, ph.full, e.now);
    } else if ph.Holding? && !Malformed(m) {
      ConflictOutcome(s, p, m, base, ResolveHead(s, p), e);
    }
  }

  lemma EraseTables(s: State, p: Path, ph: Phase, e: Env)
    requires Recorded(s.db)
    ensures EraseStep(s, p, ph, e).0.db ==
      if ph.OffDisk? && Undisturbed(e.tx, MAX_ATTEMPTS) then Body(s.db, Remove(p, ph.size, e.now)).value.0 else s.db
  {
    if ph.OffDisk? { RemovalAppends(s.db, p, ph.size, e.now); }
  }

  lemma SaveLeaves(t: Tables, p: Path, m: Mutation, present: bool, full: Data, now: int, q: Path)
    requires Recorded(t) && q != p
    ensures var r := Body(t, SaveOp(p, m, present, full, now));
      r.Some? && Recorded(r.value.0) && SameRows(t, r.value.0, q)
  {
    SaveAppends(t, p, m, present, full, now);
    ExtendedLeaves(t, p, Record(now, Sha256(full), |full|, if present then Modified else Created),
      if m.Put? && full == [] then None else Some(full), Body(t, SaveOp(p, m, present, full, now)).value.0, q);
  }

  lemma RemovalLeaves(t: Tables, p: Path, size: nat, now: int, q: Path)
    requires Recorded(t) && q != p
    ensures var r := Body(t, Remove(p, size, now));
      r.Some? && Recorded(r.value.0) && SameRows(t, r.value.0, q)
  {
    RemovalAppends(t, p, size, now);
    ExtendedLeaves(t, p, Record(now, NoDigest, size, Deleted), None, Body(t, Remove(p, size, now)).value.0, q);
  }

  /** The step of a rename's transaction, in short. */
  lemma CommitOrRefuse(s: State, from: Path, to: Path, e: Env)
    requires from != to
    ensures CarryStep(s, from, to, MovedNode, e) ==
      if Transact(s.db, Rename(from, to), e.tx).Some?
      then (s.(db := RenameTx(s.db, from, to).value), Finished(NO_HEAD, Accepted(0, None), false))
      else (s, Refused)
    ensures Transact(s.db, Rename(from, to), e.tx).Some? ==> RenameTx(s.db, from, to).Some?
  { }

  /** A rename sends no row to a path outside its target and takes none from there. */
  predicate Spared(from: Path, to: Path, p: Path)
  {
    p == from || p == to || (!Picked(from, p) && !Under(to, p))
  }

  /** The rows of a path that a rename does not pick and that is not in its target stay. */
  lemma RenameLeaves(t: Tables, from: Path, to: Path, t': Tables, p: Path)
    requires Recorded(t) && Dense(t') && RenameTx(t, from, to) == Some(t')
    requires (p in t.meta || p in t.head ==> !Picked(from, p)) && !AtOrUnder(to, p)
    ensures SameRows(t, t', p)
  {
    var image := PathImage(from, to);
    MoveMovesFiles(t, image);
    if p in t.head {
      assert image(p) == p && SameFile(t, p, t', image(p));
    } else if p in t'.head {
      var q :| q in t.head && image(q) == p;
      ImageLands(from, to, q);
    }
    if p in t.meta {
      assert image(p) == p && image(p) in t'.meta;
    } else if p in t'.meta {
      var q :| q in t.meta && image(q) == p;
      ImageLands(from, to, q);
    }
  }

  /** Any step of any handler keeps the tables well formed. */
  lemma WorkKeepsRecorded(s: State, task: Task, ph: Phase, e: Env)
    requires Recorded(s.db)
    ensures Recorded(WorkStep(s, task, ph, e).0.db)
  {
    match task
    case Changing(p, m, base) =>
      ChangeTables(s, p, m, base, ph, e);
      if ph.ReadBack? { SaveAppends(s.db, p, m, ph.head.present, ph.full, e.now); }
    case Erasing(p) =>
      EraseTables(s, p, ph, e);
      if ph.OffDisk? { RemovalAppends(s.db, p, ph.size, e.now); }
    case MakingDir(p) => DirRowKeepsRecorded(s.db, p);
    case Carrying(from, to) => CarryKeepsRecorded(s, from, to, ph, e);
  }

  lemma CarryKeepsRecorded(s: State, from: Path, to: Path, ph: Phase, e: Env)
    requires Recorded(s.db)
    ensures Recorded(CarryStep(s, from, to, ph, e).0.db)
  {
    if ph.MovedNode? && from != to {
      CommitOrRefuse(s, from, to, e);
      if RenameTx(s.db, from, to).Some? { MoveStaysRecorded(s.db, PathImage(from, to)); }
    } else {
      assert ph.MovedNode? || CarryStep(s, from, to, ph, e).0.db == s.db;
    }
  }

  /** A step leaves the rows of a path alone that its request does not touch, and that a rename
      which commits in it spares. */
  lemma WorkLeaves(s: State, task: Task, ph: Phase, e: Env, q: Path)
    requires Recorded(s.db) && !Touches(task, q)
    requires task.Carrying? && ph.MovedNode? ==> Spared(task.from, task.to, q)
    ensures Recorded(WorkStep(s, task, ph, e).0.db) && SameRows(s.db, WorkStep(s, task, ph, e).0.db, q)
  {
    WorkKeepsRecorded(s, task, ph, e);
    match task
    case Changing(p, m, base) =>
      ChangeTables(s, p, m, base, ph, e);
      if ph.ReadBack? { SaveLeaves(s.db, p, m, ph.head.present, ph.full, e.now, q); }
    case Erasing(p) =>
      EraseTables(s, p, ph, e);
      if ph.OffDisk? { RemovalLeaves(s.db, p, ph.size, e.now, q); }
    case MakingDir(p) => MakeDirLeaves(s, p, ph, e, q);
    case Carrying(from, to) => CarryLeaves(s, from, to, ph, e, q);
  }

  lemma MakeDirLeaves(s: State, p: Path, ph: Phase, e: Env, q: Path)
    requires Recorded(s.db) && q != p
    ensures var t' := MakeDirStep(s, p, ph, e).0.db; Recorded(t') && SameRows(s.db, t', q)
  {
    DirRowKeepsRecorded(s.db, p);
    var t' := MakeDirStep(s, p, ph, e).0.db;
    assert t' != s.db ==> SameFile(s.db, q, t', q);
  }

  lemma CarryLeaves(s: State, from: Path, to: Path, ph: Phase, e: Env, q: Path)
    requires Recorded(s.db) && Recorded(CarryStep(s, from, to, ph, e).0.db) && q != from && q != to
    requires ph.MovedNode? ==> Spared(from, to, q)
    ensures SameRows(s.db, CarryStep(s, from, to, ph, e).0.db, q)
  {
    if ph.MovedNode? && from != to {
      CommitOrRefuse(s, from, to, e);
      if Transact(s.db, Rename(from, to), e.tx).Some? {
        RenameLeaves(s.db, from, to, RenameTx(s.db, from, to).value, q);
      }
    } else {
      assert CarryStep(s, from, to, ph, e).0.db == s.db;
    }
  }

  // ---------- what handlers know ----------

  lemma DecisionIsKnown(s: State, p: Path, m: Mutation, base: nat, e: Env)
    requires Recorded(s.db)
    ensures var r := Decide(s, p, m, base, e);
      r.0.db == s.db && Knows(s.db, Thread(Changing(p, m, base), 1, r.1))
  {
    ResolvedVersion(s, p);
    if !Malformed(m) { ConflictOutcome(s, p, m, base, ResolveHead(s, p), e); }
  }

  /** The step that records a change takes the next version. */
  lemma RecordingIsKnown(s: State, p: Path, m: Mutation, base: nat, head: FileHead, full: Data, e: Env)
    requires Recorded(s.db) && HeadCurrent(s.db, Changing(p, m, base), head)
    ensures var r := RecordChange(s, p, m, head, full, e);
      Recorded(r.0.db) && Knows(r.0.db, Thread(Changing(p, m, base), 1, r.1))
  {
    SaveAppends(s.db, p, m, head.present, full, e.now);
  }

  lemma OwnStepIsKnown(s: State, task: Task, ph: Phase, e: Env)
    requires Recorded(s.db) && Inside(ph) && Knows(s.db, Thread(task, |Plan(task)|, ph))
    ensures var r := WorkStep(s, task, ph, e);
      Recorded(r.0.db) && Knows(r.0.db, Thread(task, |Plan(task)|, r.1))
  {
    WorkKeepsRecorded(s, task, ph, e);
    if task.Changing? {
      var Changing(p, m, base) := task;
      match ph {
        case Holding => DecisionIsKnown(s, p, m, base, e);
        case ReadBack(head, _, full) => RecordingIsKnown(s, p, m, base, head, full, e);
        case _ => ChangeTables(s, p, m, base, ph, e);
      }
    }
  }

  lemma StillKnown(t: Tables, t': Tables, th: Thread)
    requires Recorded(t) && Recorded(t') && Knows(t, th)
    requires th.task.Changing? && HasAll(th) ==> SameRows(t, t', th.task.path)
    requires Inside(th.phase) ==> HasAll(th)
    ensures Knows(t', th)
  { }

  /** If this step commits a rename, the rename spares the path of every change that another
      handler has locked. */
  ghost predicate Spares(a: System, t: Tid)
  {
    t < |a.threads| && a.threads[t].task.Carrying? && a.threads[t].phase.MovedNode? ==>
      forall u: Tid :: u < |a.threads| && a.threads[u].task.Changing? && HasAll(a.threads[u]) ==>
        Spared(a.threads[t].task.from, a.threads[t].task.to, a.threads[u].task.path)
  }

  lemma OtherStillKnows(a: System, t: Tid, u: Tid, e: Env)
    requires Inv(a) && t < |a.threads| && Inside(a.threads[t].phase) && Spares(a, t) && u < |a.threads| && u != t
    ensures var s := WorkStep(a.store, a.threads[t].task, a.threads[t].phase, e).0;
      Recorded(s.db) && Knows(s.db, a.threads[u])
  {
    var th, other := a.threads[t], a.threads[u];
    WorkKeepsRecorded(a.store, th.task, th.phase, e);
    assert Fits(a.threads[t]) && Fits(a.threads[u]);
    if other.task.Changing? && HasAll(other) {
      NoSharedPath(a, t, u, other.task.path);
      WorkLeaves(a.store, th.task, th.phase, e, other.task.path);
    }
    StillKnown(a.store.db, WorkStep(a.store, th.task, th.phase, e).0.db, other);
  }

  lemma WorkKeepsInv(a: System, t: Tid, e: Env)
    requires Inv(a) && t < |a.threads| && Inside(a.threads[t].phase) && Spares(a, t)
    ensures Inv(Advance(a, t, e))
  {
    var th := a.threads[t];
    var (s, ph) := WorkStep(a.store, th.task, th.phase, e);
    AdvanceKeepsLocks(a, t, e);
    assert Fits(a.threads[t]);
    OwnStepIsKnown(a.store, th.task, th.phase, e);
    forall u: Tid | u < |a.threads| && u != t ensures Knows(s.db, a.threads[u]) {
      OtherStillKnows(a, t, u, e);
    }
  }

  lemma LockStepKeepsInv(a: System, t: Tid, e: Env)
    requires Inv(a) && t < |a.threads| && !Inside(a.threads[t].phase)
    ensures Inv(Advance(a, t, e))
  {
    AdvanceKeepsLocks(a, t, e);
    assert Fits(a.threads[t]);
    var b := Advance(a, t, e);
    forall u: Tid | u < |b.threads| ensures Knows(b.store.db, b.threads[u]) {
      assert Knows(a.store.db, a.threads[u]);
    }
  }

  /** Whatever handler moves next, the tables, the locks and what handlers know stay valid. */
  lemma AdvanceKeepsInv(a: System, t: Tid, e: Env)
    requires Inv(a) && Spares(a, t)
    ensures Inv(Advance(a, t, e))
  {
    if t < |a.threads| {
      if Inside(a.threads[t].phase) { WorkKeepsInv(a, t, e); } else { LockStepKeepsInv(a, t, e); }
    }
  }

  // ---------- schedules ----------

  type Schedule = seq<(Tid, Env)>

  ghost function Play(a: System, sched: Schedule): System
    decreases |sched|
  {
    if sched == [] then a else Play(Advance(a, sched[0].0, sched[0].1), sched[1..])
  }

  ghost predicate SparesAll(a: System, sched: Schedule)
    decreases |sched|
  {
    sched == [] || (Spares(a, sched[0].0) && SparesAll(Advance(a, sched[0].0, sched[0].1), sched[1..]))
  }

  /** Any number of requests before their first step. */
  ghost predicate Unstarted(a: System)
  {
    && a.locks == map[]
    && forall t: Tid :: t < |a.threads| ==> a.threads[t].held == 0 && a.threads[t].phase.Waiting?
  }

  /** The same over valid tables and any disk. */
  ghost predicate Fresh(a: System)
  {
    Recorded(a.store.db) && Unstarted(a)
  }

  lemma FreshLocks(a: System)
    requires Unstarted(a)
    ensures LocksOk(a)
  {
    forall t: Tid | t < |a.threads| ensures PathLocker.Ascending(Plan(a.threads[t].task)) {
      PlanAscends(a.threads[t].task);
    }
  }

  lemma {:induction false} PlayKeepsInv(a: System, sched: Schedule)
    requires Inv(a) && SparesAll(a, sched)
    ensures Inv(Play(a, sched))
    decreases |sched|
  {
    if sched != [] {
      AdvanceKeepsInv(a, sched[0].0, sched[0].1);
      PlayKeepsInv(Advance(a, sched[0].0, sched[0].1), sched[1..]);
    }
  }

  /** In every interleaving, failures included, in which no rename commits while a change is
      under way at another path that it picks or that lies in its target: an accepted change
      that named a base on a path with versions found exactly that base, and answers base+1 if
      it recorded a version and base if it recorded none; while it holds its lock the tables
      have that version; and no two handlers have all locks of one path. */
  lemma NoLostUpdateIn(a: System, sched: Schedule, t: Tid)
    requires Fresh(a) && SparesAll(a, sched)
    requires t < |Play(a, sched).threads|
    ensures var b := Play(a, sched);
      var th := b.threads[t];
      && Recorded(b.store.db)
      && (Answered(th.phase) ==> ContinuesBase(th.task, th.phase.head, th.phase.reply, th.phase.recorded))
      && (th.phase.Finished? && HasAll(th) ==>
            AnswersTables(b.store.db, th.task, th.phase.reply, th.phase.recorded))
      && (th.phase.ReadBack? ==> HeadCurrent(b.store.db, th.task, th.phase.head))
      && forall u: Tid, p :: u < |b.threads| && u != t && HasAll(th) && HasAll(b.threads[u]) ==>
        !(Touches(th.task, p) && Touches(b.threads[u].task, p))
  {
    FreshLocks(a);
    PlayKeepsInv(a, sched);
    var b := Play(a, sched);
    assert Knows(b.store.db, b.threads[t]);
    forall u: Tid, p | u < |b.threads| && u != t && HasAll(b.threads[t]) && HasAll(b.threads[u])
      ensures !(Touches(b.threads[t].task, p) && Touches(b.threads[u].task, p))
    {
      NoSharedPath(b, t, u, p);
    }
  }

  /** Renames of the system spare all paths that are changed. */
  predicate Unrelated(threads: seq<Thread>)
  {
    forall t: Tid, u: Tid ::
      t < |threads| && u < |threads| && threads[t].task.Carrying? && threads[u].task.Changing? ==>
      Spared(threads[t].task.from, threads[t].task.to, threads[u].task.path)
  }

  lemma {:induction false} UnrelatedSpares(a: System, sched: Schedule)
    requires Unrelated(a.threads)
    ensures SparesAll(a, sched)
    decreases |sched|
  {
    if sched != [] {
      UnrelatedSpares(Advance(a, sched[0].0, sched[0].1), sched[1..]);
    }
  }

  /** The same with a condition on the requests alone. */
  lemma NoLostUpdate(a: System, sched: Schedule, t: Tid)
    requires Fresh(a) && Unrelated(a.threads) && t < |Play(a, sched).threads|
    ensures var b := Play(a, sched);
      var th := b.threads[t];
      && Recorded(b.store.db)
      && (Answered(th.phase) ==> ContinuesBase(th.task, th.phase.head, th.phase.reply, th.phase.recorded))
      && (th.phase.Finished? && HasAll(th) ==>
            AnswersTables(b.store.db, th.task, th.phase.reply, th.phase.recorded))
      && forall u: Tid, p :: u < |b.threads| && u != t && HasAll(th) && HasAll(b.threads[u]) ==>
        !(Touches(th.task, p) && Touches(b.threads[u].task, p))
  {
    UnrelatedSpares(a, sched);
    NoLostUpdateIn(a, sched, t);
  }

  // ---------- every request ends ----------

  /** How far a phase is from the end. */
  function Rank(ph: Phase): nat
  {
    match ph
    case Waiting => 5
    case Holding => 5
    case Resolved(_) => 4
    case OnDisk(_, _) => 3
    case MovedNode => 3
    case Finished(_, _, _) => 1
    case Released(_, _, _) => 0
    case _ => 2
  }

  function Left(th: Thread): nat
  {
    PathLocker.Remaining(AsWorker(th)) + Rank(th.phase)
  }

  function Effort(threads: seq<Thread>): nat
  {
    if threads == [] then 0 else Left(threads[0]) + Effort(threads[1..])
  }

  lemma {:induction false} EffortAfter(threads: seq<Thread>, t: Tid, th: Thread)
    requires t < |threads|
    ensures Effort(threads[t := th]) == Effort(threads) - Left(threads[t]) + Left(th)
    decreases |threads|
  {
    if t > 0 {
      EffortAfter(threads[1..], t - 1, th);
      assert threads[t := th][1..] == threads[1..][t - 1 := th];
    } else {
      assert threads[t := th][1..] == threads[1..];
    }
  }

  lemma WorkComesCloser(s: State, task: Task, ph: Phase, e: Env)
    requires Inside(ph) && Suits(task, ph)
    ensures Rank(WorkStep(s, task, ph, e).1) < Rank(ph)
  { }

  lemma MoveComesCloser(a: System, t: Tid, e: Env)
    requires LocksOk(a) && CanMove(a, t)
    ensures Effort(Advance(a, t, e).threads) < Effort(a.threads)
  {
    var th, b := a.threads[t], Advance(a, t, e);
    assert Fits(th);
    AdvanceKeepsFit(a, t, e);
    EffortAfter(a.threads, t, b.threads[t]);
    if Inside(th.phase) {
      WorkGoesOn(a.store, th.task, th.phase, e);
      WorkComesCloser(a.store, th.task, th.phase, e);
    }
  }

  lemma BlockedStays(a: System, t: Tid, e: Env)
    requires LocksOk(a) && !CanMove(a, t)
    ensures Advance(a, t, e) == a
  {
    assert t < |a.threads| ==> Fits(a.threads[t]);
  }

  /** How many turns of a schedule found a handler that could move. */
  ghost function Moves(a: System, sched: Schedule): nat
    decreases |sched|
  {
    if sched == [] then 0
    else (if CanMove(a, sched[0].0) then 1 else 0) + Moves(Advance(a, sched[0].0, sched[0].1), sched[1..])
  }

  lemma {:induction false} PlayKeepsLocks(a: System, sched: Schedule)
    requires LocksOk(a)
    ensures LocksOk(Play(a, sched)) && Moves(a, sched) + Effort(Play(a, sched).threads) <= Effort(a.threads)
    decreases |sched|
  {
    if sched != [] {
      var (t, e) := sched[0];
      AdvanceKeepsLocks(a, t, e);
      if CanMove(a, t) { MoveComesCloser(a, t, e); } else { BlockedStays(a, t, e); }
      PlayKeepsLocks(Advance(a, t, e), sched[1..]);
    }
  }

  /** In every interleaving of any requests, failures included: as long as one has not ended,
      some handler can move; the number of moves is bounded by the requests; and once none can
      move all locks have been given back. */
  lemma HandlersNeverDeadlock(a: System, sched: Schedule)
    requires Unstarted(a)
    ensures Moves(a, sched) <= Effort(a.threads)
    ensures var b := Play(a, sched);
      && ((exists t: Tid :: t < |b.threads| && !b.threads[t].phase.Released?) ==> exists k :: CanMove(b, k))
      && ((forall k: Tid :: !CanMove(b, k)) ==> b.locks == map[])
  {
    FreshLocks(a);
    PlayKeepsLocks(a, sched);
    var b := Play(a, sched);
    if t: Tid :| t < |b.threads| && !b.threads[t].phase.Released? {
      var k := SomeHandlerCanMove(b, t);
    }
    if p :| p in b.locks {
      var t := b.locks[p];
      assert PathLocker.Holds(Lockers(b).workers[t], p) && Fits(b.threads[t]);
    }
  }
}
