/** Requests other than renames, however their steps interleave and whatever fails: each takes
    effect as a whole at one of its own steps, one after the other. */
module Serializability {
  import opened Bytes
  import opened Paths
  import opened Tables
  import opened Disk
  import opened Handlers
  import opened Store
  import opened Agreement
  import opened Failures
  import opened Runs
  import opened Interleaving
  import opened HandlerSteps
  import opened RowLocality

  // ---------- what a step leaves alone ----------

  lemma StepElsewhere(s: State, task: Task, ph: Phase, e: Env, q: Path)
    requires !task.Carrying? && q != task.path
    ensures SameAt(s.db, WorkStep(s, task, ph, e).0.db, q)
  {
    match task
    case Changing(p, m, base) =>
      if ph.ReadBack? {
        RecordingElsewhere(s, p, m, ph.head, ph.full, e, q);
      } else if ph.Holding? && !Malformed(m) {
        ConflictOutcome(s, p, m, base, ResolveHead(s, p), e);
      }
    case Erasing(p) =>
      if ph.OffDisk? && Transact(s.db, Remove(p, ph.size, e.now), e.tx).Some? {
        TransactElsewhere(s.db, Remove(p, ph.size, e.now), e.tx, q);
      }
    case MakingDir(p) =>
  }

  lemma RecordingElsewhere(s: State, p: Path, m: Mutation, head: FileHead, full: Data, e: Env, q: Path)
    requires q != p
    ensures SameAt(s.db, RecordChange(s, p, m, head, full, e).0.db, q)
  {
    var op := SaveOp(p, m, head.present, full, e.now);
    if Transact(s.db, op, e.tx).Some? { TransactElsewhere(s.db, op, e.tx, q); }
  }

  /** What is at a path stays; where nothing is, at most a directory appears. */
  ghost predicate NodeStays(d: Tree, d': Tree, q: Path)
  {
    if q in d then q in d' && d'[q] == d[q] else q in d' ==> d'[q].Dir?
  }

  /** A step leaves the ordinary nodes alone that are not at its own path. */
  lemma StepLeavesNode(s: State, task: Task, ph: Phase, e: Env, q: Path)
    requires !task.Carrying? && NamedTask(task) && WellFormed(s.disk) && ValidEnv(e) && Inside(ph)
    requires q != task.path && !Reserved(q)
    ensures NodeStays(s.disk, WorkStep(s, task, ph, e).0.disk, q)
  {
    assert Touches(task, task.path);
    match task
    case Changing(p, m, base) =>
      if ph.Holding? && !Malformed(m) && Stale(ResolveHead(s, p), base) {
        ConflictKeepsDisk(s, p, m, base, ResolveHead(s, p), e);
      } else if ph.Resolved? && !Malformed(m) {
        MutatedFile(s.disk, p, m, e.wroteAt);
      }
    case Erasing(p) =>
    case MakingDir(p) =>
      if ph.Holding? && MakeDirs(s.disk, Ancestors(p) + {p}).Some? { MadeDirs(s.disk, p, Ancestors(p) + {p}); }
  }

  lemma StepStaysWellFormed(s: State, task: Task, ph: Phase, e: Env)
    requires !task.Carrying? && NamedTask(task) && WellFormed(s.disk) && ValidEnv(e)
    ensures WellFormed(WorkStep(s, task, ph, e).0.disk)
  {
    assert Touches(task, task.path);
    match task
    case Changing(p, m, base) =>
      if ph.Holding? && !Malformed(m) && Stale(ResolveHead(s, p), base) {
        ConflictKeepsDisk(s, p, m, base, ResolveHead(s, p), e);
      } else if ph.Resolved? && !Malformed(m) {
        MutatedFile(s.disk, p, m, e.wroteAt);
      }
    case Erasing(p) =>
      if ph.Holding? && RemoveNode(s.disk, p).Some? { RemovedNode(s.disk, p); }
    case MakingDir(p) =>
      if ph.Holding? && MakeDirs(s.disk, Ancestors(p) + {p}).Some? { MadeDirs(s.disk, p, Ancestors(p) + {p}); }
  }

  // ---------- when a decision still stands ----------

  ghost predicate IsDir(d: Tree, p: Path)
  {
    p in d && d[p].Dir?
  }

  /** Deciding again would come to the same decision to write, or a directory is in the way. */
  ghost predicate Ready(s: State, task: Task, head: FileHead)
  {
    && task.Changing? && !Malformed(task.mutation) && !Stale(head, task.base)
    && (IsDir(s.disk, task.path)
        || (ResolveHead(s, task.path) == head && !NothingToDo(s.disk, task.path, task.mutation, head)))
  }

  lemma DecisionIsReady(s: State, task: Task, e: Env)
    requires task.Changing? && WorkStep(s, task, Holding, e).1.Resolved?
    ensures WorkStep(s, task, Holding, e).0 == s && Ready(s, task, WorkStep(s, task, Holding, e).1.head)
  { }

  lemma ReadyStays(s: State, s': State, task: Task, head: FileHead)
    requires Ready(s, task, head) && SameAt(s.db, s'.db, task.path) && NodeStays(s.disk, s'.disk, task.path)
    ensures Ready(s', task, head)
  {
    if !IsDir(s'.disk, task.path) { SameHead(s, s', task.path); }
  }

  // ---------- one request, at one step ----------

  /** The first step's view of the system up to the change on disk, the later steps' view after. */
  function Merged(e: Env, late: Env): Env
  {
    e.(readOk := late.readOk, tx := late.tx, now := late.now)
  }

  lemma EarlySteps(s: State, task: Task, ph: Phase, e: Env, late: Env)
    requires !task.Carrying? && (ph.Holding? || ph.Resolved?)
    ensures WorkStep(s, task, ph, Merged(e, late)) == WorkStep(s, task, ph, e)
  { }

  lemma LateSteps(s: State, task: Task, ph: Phase, e: Env, late: Env)
    requires !task.Carrying? && Suits(task, ph) && (Underway(ph) || ph.Finished?)
    ensures WorkStep(s, task, ph, Merged(e, late)) == WorkStep(s, task, ph, late)
  { }

  lemma LateRests(s: State, task: Task, ph: Phase, e: Env, late: Env)
    requires !task.Carrying? && Suits(task, ph) && (Underway(ph) || ph.Finished?)
    ensures Rest(s, task, ph, Merged(e, late)) == Rest(s, task, ph, late)
    ensures Rest(s, task, ph, late).1.Finished?
    ensures Steps(s, task, ph, Merged(e, late), 3) == Rest(s, task, ph, late)
    ensures Rest(s, task, ph, late).0.disk == s.disk && Rest(s, task, ph, late).0.lastSweep == s.lastSweep
  {
    var x := Merged(e, late);
    if ph.Finished? {
      FinishedStays(s, task, ph, x, 2);
      FinishedStays(s, task, ph, late, 2);
      FinishedStays(s, task, ph, x, 3);
    } else {
      SameAtItself(s.db, task.path);
      LateRest(s, s, task, ph, late);
      LateSteps(s, task, ph, e, late);
      var (s1, ph1) := WorkStep(s, task, ph, late);
      LateStep(s, s, task, ph, late);
      LateSteps(s1, task, ph1, e, late);
      OneStep(s, task, ph, x, 2);
      OneStep(s, task, ph, late, 2);
      OneStep(s, task, ph, x, 3);
      OneStep(s1, task, ph1, x, 1);
      OneStep(s1, task, ph1, late, 1);
      OneStep(s1, task, ph1, x, 2);
      var (s2, ph2) := WorkStep(s1, task, ph1, late);
      FinishedStays(s2, task, ph2, x, 1);
    }
  }

  lemma SameAtItself(t: Tables, p: Path)
    ensures SameAt(t, t, p)
  { }

  /** A step of a request that is to be its one effect: the change on disk, or an answer without
      one. */
  ghost predicate Effective(s: State, task: Task, ph: Phase, e: Env)
  {
    var (s1, ph1) := WorkStep(s, task, ph, e);
    && (Underway(ph1) || ph1.Finished?)
    && (ph.Holding? || (ph.Resolved? && Ready(s, task, ph.head) && !(ph1.Finished? && s1 == s)))
  }

  /** Done as a whole at that step over a store that looks the same at its path, the request
      does to it what its step and the rest of its steps do. */
  lemma ServedAtOnce(s: State, q: State, task: Task, ph: Phase, e: Env, late: Env)
    requires !task.Carrying? && Suits(task, ph) && NamedTask(task) && WellFormed(s.disk)
    requires Alike(s, q, task.path) && Effective(s, task, ph, e)
    ensures var (s1, ph1) := WorkStep(s, task, ph, e);
      var (s2, ph2) := Rest(s1, task, ph1, late);
      var (q', r) := Handle(q, RequestOf(task), Merged(e, late));
      Alike(s2, q', task.path) && s2.disk == s1.disk && s2.lastSweep == s1.lastSweep && ph2.Finished? && r == ph2.reply
  {
    var x := Merged(e, late);
    var (s1, ph1) := WorkStep(s, task, ph, e);
    WorkGoesOn(s, task, ph, e);
    StepsAreTheHandler(q, task, x);
    EarlySteps(s, task, ph, e, late);
    SameStep(s, q, task, ph, x);
    var q1 := WorkStep(q, task, ph, x).0;
    LateRests(s1, task, ph1, e, late);
    LateRests(q1, task, ph1, e, late);
    SameSteps(s1, q1, task, ph1, late, 2);
    if ph.Holding? {
      OneStep(q, task, Holding, x, 4);
    } else {
      DecidesAgain(s, q, task, ph.head, e, x);
      OneStep(q, task, Holding, x, 4);
      OneStep(q, task, ph, x, 3);
    }
  }

  /** A write that does not fail at once meets no directory, so its decision is come to again. */
  lemma DecidesAgain(s: State, q: State, task: Task, head: FileHead, e: Env, x: Env)
    requires task.Changing? && Alike(s, q, task.path) && Ready(s, task, head)
    requires WorkStep(s, task, Resolved(head), e).1.Finished? ==> WorkStep(s, task, Resolved(head), e).0 != s
    ensures WorkStep(q, task, Holding, x) == (q, Resolved(head))
  {
    assert !IsDir(s.disk, task.path);
    SameHead(s, q, task.path);
  }

  /** A change that is going to fail without touching the disk can fail at once. */
  lemma FailsAtOnce(s: State, q: State, task: Task, e: Env)
    requires task.Changing? && Alike(s, q, task.path) && WorkStep(s, task, Holding, e).1.Resolved?
    ensures Handle(q, RequestOf(task), e.(diskOk := false)) == (q, Failed)
  {
    SameHead(s, q, task.path);
  }

  // ---------- the system ----------

  /** Not a rename, and a change only of a file with an ordinary name. */
  predicate PlainTask(task: Task)
  {
    !task.Carrying? && task.path != "" && (task.Changing? ==> !Reserved(task.path))
  }

  predicate ValidEnvs(sched: Schedule)
  {
    forall x :: x in sched ==> ValidEnv(x.1)
  }

  ghost predicate SystemOk(a: System, sched: Schedule)
  {
    && LocksOk(a) && WellFormed(a.store.disk) && ValidEnvs(sched)
    && forall t: Tid :: t < |a.threads| ==> PlainTask(a.threads[t].task)
  }

  /** What comes of the later steps of a handler that has changed the disk, as the schedule has
      it. */
  ghost function Fate(a: System, sched: Schedule, t: Tid): Env
    decreases |sched|
  {
    if sched == [] || t >= |a.threads| then Environment(Clean, true)
    else
      var (u, e) := sched[0];
      var b := Advance(a, u, e);
      if u != t then Fate(b, sched[1..], t)
      else if a.threads[t].phase.OnDisk? then Fate(b, sched[1..], t).(readOk := e.readOk)
      else e
  }

  /** The schedule lets the next step of the handler fail without touching anything. */
  ghost predicate Doomed(a: System, sched: Schedule, t: Tid)
    decreases |sched|
  {
    && sched != [] && t < |a.threads|
    && var (u, e) := sched[0];
      if u != t then Doomed(Advance(a, u, e), sched[1..], t)
      else
        var (s, ph) := WorkStep(a.store, a.threads[t].task, a.threads[t].phase, e);
        ph.Finished? && s == a.store
  }

  /** The request has had its effect. */
  ghost predicate Served(a: System, sched: Schedule, t: Tid)
    requires t < |a.threads|
  {
    var ph := a.threads[t].phase;
    Underway(ph) || Answered(ph) || (ph.Resolved? && Doomed(a, sched, t))
  }

  /** What the store would be after the rest of a request. */
  ghost function Promise(a: System, sched: Schedule, t: Tid): (State, Phase)
    requires t < |a.threads|
  {
    Rest(a.store, a.threads[t].task, a.threads[t].phase, Fate(a, sched, t))
  }

  lemma PlainIsNamed(task: Task)
    requires PlainTask(task)
    ensures NamedTask(task)
  { }

  lemma AdvanceKeepsSystem(a: System, sched: Schedule)
    requires SystemOk(a, sched) && sched != []
    ensures var b := Advance(a, sched[0].0, sched[0].1);
      SystemOk(b, sched[1..]) && |b.threads| == |a.threads|
  {
    var (t, e) := sched[0];
    assert sched[0] in sched;
    AdvanceKeepsLocks(a, t, e);
    if t < |a.threads| {
      AdvanceKeepsFit(a, t, e);
      var th := a.threads[t];
      PlainIsNamed(th.task);
      if Inside(th.phase) { StepStaysWellFormed(a.store, th.task, th.phase, e); }
    }
  }

  /** A working handler's step, as the system sees it. */
  lemma WorkOf(a: System, t: Tid, e: Env)
    requires t < |a.threads| && Inside(a.threads[t].phase)
    ensures var (s, ph) := WorkStep(a.store, a.threads[t].task, a.threads[t].phase, e);
      var b := Advance(a, t, e);
      b.store == s && b.threads == a.threads[t := a.threads[t].(phase := ph)]
  { }

  lemma AloneAtItsPath(a: System, t: Tid, u: Tid)
    requires LocksOk(a) && t < |a.threads| && u < |a.threads| && t != u
    requires Inside(a.threads[t].phase) && Inside(a.threads[u].phase)
    requires PlainTask(a.threads[t].task) && PlainTask(a.threads[u].task)
    ensures a.threads[t].task.path != a.threads[u].task.path
  {
    assert Fits(a.threads[t]) && Fits(a.threads[u]);
    NoSharedPath(a, t, u, a.threads[t].task.path);
  }

  // ---------- promises are kept ----------

  /** A step of another handler changes nothing for a request under way. */
  lemma OtherPromiseStays(a: System, sched: Schedule, u: Tid)
    requires SystemOk(a, sched) && sched != [] && u < |a.threads|
    requires Underway(a.threads[u].phase) && sched[0].0 != u
    ensures var b := Advance(a, sched[0].0, sched[0].1);
      && u < |b.threads| && b.threads[u] == a.threads[u]
      && Promise(b, sched[1..], u).1 == Promise(a, sched, u).1
      && SameAt(Promise(a, sched, u).0.db, Promise(b, sched[1..], u).0.db, a.threads[u].task.path)
  {
    var (t, e) := sched[0];
    var b, other := Advance(a, t, e), a.threads[u];
    AdvanceKeepsSystem(a, sched);
    assert b.threads[u] == other && Fits(other);
    SameAtItself(a.store.db, other.task.path);
    if t < |a.threads| && Inside(a.threads[t].phase) {
      var th := a.threads[t];
      assert sched[0] in sched;
      WorkOf(a, t, e);
      AloneAtItsPath(a, t, u);
      PlainIsNamed(th.task);
      StepElsewhere(a.store, th.task, th.phase, e, other.task.path);
      if other.phase.OnDisk? { StepLeavesNode(a.store, th.task, th.phase, e, other.task.path); }
    } else {
      assert b.store == a.store;
    }
    LateRest(a.store, b.store, other.task, other.phase, Fate(a, sched, u));
  }

  /** The handler's own step does the first part of what was promised. */
  lemma OwnPromiseStays(a: System, sched: Schedule)
    requires SystemOk(a, sched) && sched != [] && sched[0].0 < |a.threads|
    requires Underway(a.threads[sched[0].0].phase)
    ensures var t := sched[0].0;
      var b := Advance(a, t, sched[0].1);
      && t < |b.threads| && (Underway(b.threads[t].phase) || b.threads[t].phase.Finished?)
      && Promise(a, sched, t) ==
        if b.threads[t].phase.Finished? then (b.store, b.threads[t].phase) else Promise(b, sched[1..], t)
  {
    var (t, e) := sched[0];
    var th := a.threads[t];
    assert Fits(th);
    WorkOf(a, t, e);
    WorkGoesOn(a.store, th.task, th.phase, e);
    SameAtItself(a.store.db, th.task.path);
    LateStep(a.store, a.store, th.task, th.phase, e);
    PromiseUnfolds(a.store, th.task, th.phase, e, Fate(Advance(a, t, e), sched[1..], t));
  }

  lemma PromiseUnfolds(s: State, task: Task, ph: Phase, e: Env, late: Env)
    requires !task.Carrying? && Suits(task, ph) && Underway(ph)
    ensures var (s1, ph1) := WorkStep(s, task, ph, e);
      Rest(s, task, ph, if ph.OnDisk? then late.(readOk := e.readOk) else e) ==
        if ph1.Finished? then (s1, ph1) else Rest(s1, task, ph1, late)
  {
    var x := if ph.OnDisk? then late.(readOk := e.readOk) else e;
    var (s1, ph1) := WorkStep(s, task, ph, e);
    SameAtItself(s.db, task.path);
    SameAtItself(s1.db, task.path);
    LateStep(s, s, task, ph, e);
    assert WorkStep(s, task, ph, x) == (s1, ph1);
    OneStep(s, task, ph, x, 2);
    if ph1.Finished? {
      FinishedStays(s1, task, ph1, x, 1);
    } else {
      assert WorkStep(s1, task, ph1, x) == WorkStep(s1, task, ph1, late);
      LateStep(s1, s1, task, ph1, late);
      var (s2, ph2) := WorkStep(s1, task, ph1, late);
      OneStep(s1, task, ph1, x, 1);
      OneStep(s1, task, ph1, late, 2);
      FinishedStays(s2, task, ph2, late, 1);
    }
  }

  lemma AnswerStaysOnce(a: System, u: Tid, e: Env, t: Tid)
    requires t < |a.threads| && Answered(a.threads[t].phase)
    ensures var b := Advance(a, u, e);
      t < |b.threads| && Answered(b.threads[t].phase) && b.threads[t].phase.reply == a.threads[t].phase.reply
  { }

  lemma {:induction false} AnswerStays(a: System, sched: Schedule, t: Tid)
    requires t < |a.threads| && Answered(a.threads[t].phase)
    ensures var b := Play(a, sched);
      t < |b.threads| && Answered(b.threads[t].phase) && b.threads[t].phase.reply == a.threads[t].phase.reply
    decreases |sched|
  {
    if sched != [] {
      AnswerStaysOnce(a, sched[0].0, sched[0].1, t);
      AnswerStays(Advance(a, sched[0].0, sched[0].1), sched[1..], t);
    }
  }

  lemma OthersStay(a: System, u: Tid, e: Env, t: Tid)
    requires t < |a.threads| && u != t
    ensures t < |Advance(a, u, e).threads| && Advance(a, u, e).threads[t] == a.threads[t]
  { }

  /** A request under way is answered what its promise says, unless it is left under way. */
  lemma {:induction false} PromiseComesTrue(a: System, sched: Schedule, t: Tid)
    requires SystemOk(a, sched) && t < |a.threads| && Underway(a.threads[t].phase)
    requires t < |Play(a, sched).threads| && !Underway(Play(a, sched).threads[t].phase)
    ensures Promise(a, sched, t).1.Finished?
    ensures var ph := Play(a, sched).threads[t].phase;
      Answered(ph) && ph.reply == Promise(a, sched, t).1.reply
    decreases |sched|
  {
    var (u, e) := sched[0];
    var b := Advance(a, u, e);
    AdvanceKeepsSystem(a, sched);
    assert Fits(a.threads[t]);
    SameAtItself(a.store.db, a.threads[t].task.path);
    LateRest(a.store, a.store, a.threads[t].task, a.threads[t].phase, Fate(a, sched, t));
    if u != t {
      OthersStay(a, u, e, t);
      OtherPromiseStays(a, sched, t);
      PromiseComesTrue(b, sched[1..], t);
    } else {
      OwnPromiseStays(a, sched);
      if b.threads[t].phase.Finished? {
        AnswerStays(b, sched[1..], t);
      } else {
        PromiseComesTrue(b, sched[1..], t);
      }
    }
  }

  lemma FailedWrite(s: State, task: Task, head: FileHead, e: Env)
    requires task.Changing? && WorkStep(s, task, Resolved(head), e).1.Finished?
    ensures WorkStep(s, task, Resolved(head), e).1.reply == Failed
  { }

  lemma {:induction false} DoomComesTrue(a: System, sched: Schedule, t: Tid)
    requires SystemOk(a, sched) && t < |a.threads| && a.threads[t].phase.Resolved? && Doomed(a, sched, t)
    ensures t < |Play(a, sched).threads|
    ensures var ph := Play(a, sched).threads[t].phase; Answered(ph) && ph.reply == Failed
    decreases |sched|
  {
    var (u, e) := sched[0];
    var b := Advance(a, u, e);
    AdvanceKeepsSystem(a, sched);
    if u != t {
      OthersStay(a, u, e, t);
      DoomComesTrue(b, sched[1..], t);
    } else {
      assert Fits(a.threads[t]);
      WorkOf(a, t, e);
      FailedWrite(a.store, a.threads[t].task, a.threads[t].phase.head, e);
      AnswerStays(b, sched[1..], t);
    }
  }

  // ---------- the system and the requests done one after the other ----------

  /** No request under way is at p. */
  ghost predicate Untaken(a: System, p: Path)
  {
    forall t: Tid :: t < |a.threads| && Underway(a.threads[t].phase) ==> !Touches(a.threads[t].task, p)
  }

  /** q is the store after the requests that have had their effect were done as a whole: disk
      and sweep are the same, the rows differ where a request is under way, and there they are
      what is promised. */
  ghost predicate Abreast(a: System, sched: Schedule, q: State)
    requires SystemOk(a, sched)
  {
    && q.disk == a.store.disk && q.lastSweep == a.store.lastSweep
    && (forall t: Tid :: t < |a.threads| && Underway(a.threads[t].phase) ==>
          SameAt(Promise(a, sched, t).0.db, q.db, a.threads[t].task.path))
    && (forall p :: Untaken(a, p) ==> SameAt(a.store.db, q.db, p))
  }

  ghost predicate Decided(a: System, sched: Schedule)
  {
    forall t: Tid :: t < |a.threads| && a.threads[t].phase.Resolved? && !Doomed(a, sched, t) ==>
      Ready(a.store, a.threads[t].task, a.threads[t].phase.head)
  }

  ghost predicate SerialInv(a: System, sched: Schedule, q: State)
  {
    SystemOk(a, sched) && Abreast(a, sched, q) && Decided(a, sched)
  }

  /** A path nobody under way is at looks the same to a request done at once. */
  lemma LooksAlike(a: System, sched: Schedule, q: State, t: Tid)
    requires SerialInv(a, sched, q) && t < |a.threads|
    requires Inside(a.threads[t].phase) && !Underway(a.threads[t].phase)
    ensures Alike(a.store, q, a.threads[t].task.path)
  {
    forall u: Tid | u < |a.threads| && Underway(a.threads[u].phase)
      ensures !Touches(a.threads[u].task, a.threads[t].task.path)
    {
      AloneAtItsPath(a, t, u);
    }
  }

  lemma OtherDecisionStands(a: System, sched: Schedule, u: Tid)
    requires SystemOk(a, sched) && Decided(a, sched) && sched != [] && u < |a.threads| && sched[0].0 != u
    requires a.threads[u].phase.Resolved? && !Doomed(a, sched, u)
    ensures var b := Advance(a, sched[0].0, sched[0].1);
      Ready(b.store, a.threads[u].task, a.threads[u].phase.head)
  {
    var (t, e) := sched[0];
    var b, other := Advance(a, t, e), a.threads[u];
    if t < |a.threads| && Inside(a.threads[t].phase) {
      var th := a.threads[t];
      assert sched[0] in sched && Fits(other);
      WorkOf(a, t, e);
      AloneAtItsPath(a, t, u);
      PlainIsNamed(th.task);
      StepElsewhere(a.store, th.task, th.phase, e, other.task.path);
      StepLeavesNode(a.store, th.task, th.phase, e, other.task.path);
      ReadyStays(a.store, b.store, other.task, other.phase.head);
    } else {
      assert b.store == a.store;
    }
  }

  /** What the handler that moved, and the store in which requests are done at once, must look
      like after the step. */
  ghost predicate StepFits(a: System, sched: Schedule, q: State, q': State)
    requires sched != [] && sched[0].0 < |a.threads| && PlainTask(a.threads[sched[0].0].task)
  {
    var t := sched[0].0;
    var b := Advance(a, t, sched[0].1);
    && t < |b.threads|
    && var p, ph := a.threads[t].task.path, b.threads[t].phase;
      && q'.disk == b.store.disk && q'.lastSweep == b.store.lastSweep
      && (forall x :: x != p ==> SameAt(q.db, q'.db, x))
      && SameAt(if Underway(ph) then Promise(b, sched[1..], t).0.db else b.store.db, q'.db, p)
      && (ph.Resolved? && !Doomed(b, sched[1..], t) ==> Ready(b.store, b.threads[t].task, ph.head))
  }

  lemma UntakenElsewhere(a: System, t: Tid, e: Env, p: Path)
    requires t < |a.threads| && !Touches(a.threads[t].task, p)
    ensures Untaken(Advance(a, t, e), p) <==> Untaken(a, p)
  {
    var b := Advance(a, t, e);
    assert |b.threads| == |a.threads|;
    forall u: Tid | u < |a.threads| ensures b.threads[u].task == a.threads[u].task { }
    if Untaken(a, p) {
      forall u: Tid | u < |b.threads| && Underway(b.threads[u].phase) ensures !Touches(b.threads[u].task, p) {
        assert u != t ==> b.threads[u] == a.threads[u];
      }
    }
    if Untaken(b, p) {
      forall u: Tid | u < |a.threads| && Underway(a.threads[u].phase) ensures !Touches(a.threads[u].task, p) {
        assert u != t ==> b.threads[u] == a.threads[u];
      }
    }
  }

  lemma RowsStayAbreast(a: System, sched: Schedule, q: State, q': State, p: Path)
    requires SerialInv(a, sched, q) && sched != [] && sched[0].0 < |a.threads| && Inside(a.threads[sched[0].0].phase)
    requires StepFits(a, sched, q, q') && Untaken(Advance(a, sched[0].0, sched[0].1), p)
    ensures SameAt(Advance(a, sched[0].0, sched[0].1).store.db, q'.db, p)
  {
    var (t, e) := sched[0];
    var th, b := a.threads[t], Advance(a, t, e);
    WorkOf(a, t, e);
    if p != th.task.path {
      UntakenElsewhere(a, t, e, p);
      StepElsewhere(a.store, th.task, th.phase, e, p);
      SameAtSymmetric(a.store.db, b.store.db, p);
      SameAtTransitive(b.store.db, a.store.db, q.db, p);
      SameAtTransitive(b.store.db, q.db, q'.db, p);
    }
  }

  lemma PromiseStaysAbreast(a: System, sched: Schedule, q: State, q': State, u: Tid)
    requires SerialInv(a, sched, q) && sched != [] && sched[0].0 < |a.threads| && Inside(a.threads[sched[0].0].phase)
    requires StepFits(a, sched, q, q') && u < |a.threads| && u != sched[0].0 && Underway(a.threads[u].phase)
    ensures var b := Advance(a, sched[0].0, sched[0].1);
      u < |b.threads| && SameAt(Promise(b, sched[1..], u).0.db, q'.db, a.threads[u].task.path)
  {
    var p := a.threads[u].task.path;
    var b := Advance(a, sched[0].0, sched[0].1);
    OtherPromiseStays(a, sched, u);
    AloneAtItsPath(a, sched[0].0, u);
    SameAtSymmetric(Promise(a, sched, u).0.db, Promise(b, sched[1..], u).0.db, p);
    SameAtTransitive(Promise(b, sched[1..], u).0.db, Promise(a, sched, u).0.db, q.db, p);
    SameAtTransitive(Promise(b, sched[1..], u).0.db, q.db, q'.db, p);
  }

  /** A working step keeps the two stores abreast. */
  lemma WorkStaysAbreast(a: System, sched: Schedule, q: State, q': State)
    requires SerialInv(a, sched, q) && sched != [] && sched[0].0 < |a.threads| && Inside(a.threads[sched[0].0].phase)
    requires StepFits(a, sched, q, q')
    ensures SerialInv(Advance(a, sched[0].0, sched[0].1), sched[1..], q')
  {
    var (t, e) := sched[0];
    var b := Advance(a, t, e);
    AdvanceKeepsSystem(a, sched);
    WorkOf(a, t, e);
    forall p | Untaken(b, p) ensures SameAt(b.store.db, q'.db, p) {
      RowsStayAbreast(a, sched, q, q', p);
    }
    forall u: Tid | u < |b.threads| && Underway(b.threads[u].phase)
      ensures SameAt(Promise(b, sched[1..], u).0.db, q'.db, b.threads[u].task.path)
    {
      if u != t { PromiseStaysAbreast(a, sched, q, q', u); }
    }
    forall u: Tid | u < |b.threads| && b.threads[u].phase.Resolved? && !Doomed(b, sched[1..], u)
      ensures Ready(b.store, b.threads[u].task, b.threads[u].phase.head)
    {
      if u != t { OtherDecisionStands(a, sched, u); }
    }
  }

  // ---------- the step at which a request has its effect ----------

  /** This step is the one effect of its request. */
  ghost predicate ServedNow(a: System, sched: Schedule)
  {
    && sched != [] && sched[0].0 < |a.threads| && !Served(a, sched, sched[0].0)
    && var b := Advance(a, sched[0].0, sched[0].1);
      sched[0].0 < |b.threads| && Served(b, sched[1..], sched[0].0)
  }

  lemma ServedElsewhere(a: System, sched: Schedule, u: Tid)
    requires SystemOk(a, sched) && sched != [] && u < |a.threads| && u != sched[0].0
    ensures var b := Advance(a, sched[0].0, sched[0].1);
      u < |b.threads| && (Served(b, sched[1..], u) <==> Served(a, sched, u))
  {
    OthersStay(a, sched[0].0, sched[0].1, u);
  }

  lemma ServedStays(a: System, sched: Schedule, u: Tid)
    requires SystemOk(a, sched) && sched != [] && u < |a.threads| && Served(a, sched, u)
    ensures var b := Advance(a, sched[0].0, sched[0].1);
      u < |b.threads| && Served(b, sched[1..], u)
  {
    var (t, e) := sched[0];
    if u != t {
      ServedElsewhere(a, sched, u);
    } else {
      assert Fits(a.threads[t]);
      if Answered(a.threads[t].phase) {
        AnswerStaysOnce(a, t, e, t);
      } else if Underway(a.threads[t].phase) {
        OwnPromiseStays(a, sched);
      } else {
        WorkOf(a, t, e);
      }
    }
  }

  lemma OtherRowsStayPromised(a: System, sched: Schedule, q: State, u: Tid)
    requires SerialInv(a, sched, q) && sched != [] && u < |a.threads| && u != sched[0].0
    requires Underway(a.threads[u].phase)
    ensures var b := Advance(a, sched[0].0, sched[0].1);
      u < |b.threads| && SameAt(Promise(b, sched[1..], u).0.db, q.db, a.threads[u].task.path)
  {
    var p := a.threads[u].task.path;
    var b := Advance(a, sched[0].0, sched[0].1);
    OtherPromiseStays(a, sched, u);
    SameAtSymmetric(Promise(a, sched, u).0.db, Promise(b, sched[1..], u).0.db, p);
    SameAtTransitive(Promise(b, sched[1..], u).0.db, Promise(a, sched, u).0.db, q.db, p);
  }

  /** Steps that only concern locks. */
  ghost predicate LockStep(a: System, sched: Schedule)
  {
    sched != [] && (sched[0].0 < |a.threads| ==> !Inside(a.threads[sched[0].0].phase))
  }

  /** The handler that takes or returns a lock has nothing under way and nothing decided. */
  lemma LockMove(a: System, t: Tid, e: Env)
    requires t < |a.threads| && !Inside(a.threads[t].phase)
    ensures var b := Advance(a, t, e);
      && b.store == a.store && |b.threads| == |a.threads|
      && !Underway(b.threads[t].phase) && !b.threads[t].phase.Resolved?
  { }

  lemma LockStepKeepsStore(a: System, sched: Schedule)
    requires LockStep(a, sched)
    ensures Advance(a, sched[0].0, sched[0].1).store == a.store
    ensures |Advance(a, sched[0].0, sched[0].1).threads| == |a.threads|
  {
    if sched[0].0 < |a.threads| { LockMove(a, sched[0].0, sched[0].1); }
  }

  lemma LockStepIsQuiet(a: System, sched: Schedule, u: Tid)
    requires LockStep(a, sched)
    requires var b := Advance(a, sched[0].0, sched[0].1);
      u < |b.threads| && (Underway(b.threads[u].phase) || b.threads[u].phase.Resolved?)
    ensures u != sched[0].0 && u < |a.threads|
    ensures Advance(a, sched[0].0, sched[0].1).threads[u] == a.threads[u]
  {
    var (t, e) := sched[0];
    LockStepKeepsStore(a, sched);
    if u == t { LockMove(a, t, e); } else { OthersStay(a, t, e, u); }
  }

  lemma LockStepKeepsUntaken(a: System, sched: Schedule, q: State, p: Path)
    requires SerialInv(a, sched, q) && LockStep(a, sched) && Untaken(Advance(a, sched[0].0, sched[0].1), p)
    ensures SameAt(a.store.db, q.db, p)
  {
    var (t, e) := sched[0];
    forall u: Tid | u < |a.threads| && Underway(a.threads[u].phase) ensures !Touches(a.threads[u].task, p) {
      assert Underway(a.threads[u].phase) ==> u != t;
      OthersStay(a, t, e, u);
    }
  }

  lemma LockStepKeepsDecided(a: System, sched: Schedule)
    requires SystemOk(a, sched) && Decided(a, sched) && LockStep(a, sched)
    ensures Decided(Advance(a, sched[0].0, sched[0].1), sched[1..])
  {
    var b := Advance(a, sched[0].0, sched[0].1);
    LockStepKeepsStore(a, sched);
    forall u: Tid | u < |b.threads| && b.threads[u].phase.Resolved? && !Doomed(b, sched[1..], u)
      ensures Ready(b.store, b.threads[u].task, b.threads[u].phase.head)
    {
      LockStepIsQuiet(a, sched, u);
    }
  }

  lemma LockStepStaysAbreast(a: System, sched: Schedule, q: State)
    requires SerialInv(a, sched, q) && LockStep(a, sched)
    ensures SerialInv(Advance(a, sched[0].0, sched[0].1), sched[1..], q)
  {
    var b := Advance(a, sched[0].0, sched[0].1);
    AdvanceKeepsSystem(a, sched);
    LockStepKeepsStore(a, sched);
    LockStepKeepsDecided(a, sched);
    forall u: Tid | u < |b.threads| && Underway(b.threads[u].phase)
      ensures SameAt(Promise(b, sched[1..], u).0.db, q.db, b.threads[u].task.path)
    {
      LockStepIsQuiet(a, sched, u);
      OtherRowsStayPromised(a, sched, q, u);
    }
    forall p | Untaken(b, p) ensures SameAt(b.store.db, q.db, p) {
      LockStepKeepsUntaken(a, sched, q, p);
    }
  }

  lemma NothingElsewhere(q: State, p: Path)
    ensures forall x :: x != p ==> SameAt(q.db, q.db, x)
  {
    forall x | x != p ensures SameAt(q.db, q.db, x) { SameAtItself(q.db, x); }
  }

  /** The later steps of a request do what was promised and touch nothing else. */
  lemma LateStepFits(a: System, sched: Schedule, q: State)
    requires SerialInv(a, sched, q) && sched != [] && sched[0].0 < |a.threads|
    requires Underway(a.threads[sched[0].0].phase)
    ensures StepFits(a, sched, q, q)
  {
    var (t, e) := sched[0];
    var th := a.threads[t];
    assert Fits(th);
    WorkOf(a, t, e);
    OwnPromiseStays(a, sched);
    SameAtItself(a.store.db, th.task.path);
    LateStep(a.store, a.store, th.task, th.phase, e);
    NothingElsewhere(q, th.task.path);
  }

  /** A decision to write, and a write that fails without touching anything. */
  lemma IdleStepFits(a: System, sched: Schedule, q: State)
    requires SerialInv(a, sched, q) && sched != [] && sched[0].0 < |a.threads|
    requires var th := a.threads[sched[0].0];
      var ph := WorkStep(a.store, th.task, th.phase, sched[0].1).1;
      || (th.phase.Holding? && th.task.Changing? && ph.Resolved?)
      || (th.phase.Resolved? && Doomed(a, sched, sched[0].0))
    ensures StepFits(a, sched, q, q)
  {
    var (t, e) := sched[0];
    var th := a.threads[t];
    assert Fits(th);
    WorkOf(a, t, e);
    LooksAlike(a, sched, q, t);
    NothingElsewhere(q, th.task.path);
    if th.phase.Holding? { DecisionIsReady(a.store, th.task, e); }
  }

  lemma QuietStepStaysAbreast(a: System, sched: Schedule, q: State)
    requires SerialInv(a, sched, q) && sched != [] && !ServedNow(a, sched)
    ensures SerialInv(Advance(a, sched[0].0, sched[0].1), sched[1..], q)
  {
    var (t, e) := sched[0];
    if t >= |a.threads| || !Inside(a.threads[t].phase) {
      LockStepStaysAbreast(a, sched, q);
    } else {
      var th := a.threads[t];
      assert Fits(th);
      WorkOf(a, t, e);
      WorkGoesOn(a.store, th.task, th.phase, e);
      StartsSomewhere(a.store, th.task, th.phase, e);
      if Underway(th.phase) { LateStepFits(a, sched, q); } else { IdleStepFits(a, sched, q); }
      WorkStaysAbreast(a, sched, q, q);
    }
  }

  /** Where the first steps of a handler lead. */
  lemma StartsSomewhere(s: State, task: Task, ph: Phase, e: Env)
    requires !task.Carrying? && Suits(task, ph) && Inside(ph)
    ensures var ph1 := WorkStep(s, task, ph, e).1;
      && (Underway(ph) || ph.Holding? || ph.Resolved?)
      && (ph.Holding? ==> Underway(ph1) || ph1.Finished? || (task.Changing? && ph1.Resolved?))
      && (ph.Resolved? ==> Underway(ph1) || ph1.Finished?)
  { }

  // ---------- requests done at once, elsewhere ----------

  lemma {:induction false} StepsElsewhere(s: State, task: Task, ph: Phase, e: Env, n: nat, x: Path)
    requires !task.Carrying? && x != task.path
    ensures SameAt(s.db, Steps(s, task, ph, e, n).0.db, x)
    decreases n
  {
    SameAtItself(s.db, x);
    if n > 0 {
      var (s1, ph1) := WorkStep(s, task, ph, e);
      StepElsewhere(s, task, ph, e, x);
      StepsElsewhere(s1, task, ph1, e, n - 1, x);
      SameAtTransitive(s.db, s1.db, Steps(s1, task, ph1, e, n - 1).0.db, x);
    }
  }

  lemma HandledElsewhere(q: State, task: Task, e: Env, x: Path)
    requires PlainTask(task) && WellFormed(q.disk) && x != task.path
    ensures SameAt(q.db, Handle(q, RequestOf(task), e).0.db, x)
  {
    PlainIsNamed(task);
    StepsAreTheHandler(q, task, e);
    StepsElsewhere(q, task, Holding, e, 4, x);
  }

  /** The environment of the request done at once. */
  ghost function ServingEnv(a: System, sched: Schedule): Env
    requires sched != []
  {
    var (t, e) := sched[0];
    var b := Advance(a, t, e);
    if t < |b.threads| && b.threads[t].phase.Resolved? then e.(diskOk := false)
    else Merged(e, Fate(b, sched[1..], t))
  }

  /** The change on disk, or an answer without one, is the effect of the whole request. */
  lemma EffectFits(a: System, sched: Schedule, q: State)
    requires SerialInv(a, sched, q) && ServedNow(a, sched)
    requires !Advance(a, sched[0].0, sched[0].1).threads[sched[0].0].phase.Resolved?
    ensures var b := Advance(a, sched[0].0, sched[0].1);
      var (q', r) := Handle(q, RequestOf(a.threads[sched[0].0].task), ServingEnv(a, sched));
      && Inside(a.threads[sched[0].0].phase)
      && StepFits(a, sched, q, q')
      && Promise(b, sched[1..], sched[0].0).1.Finished? && r == Promise(b, sched[1..], sched[0].0).1.reply
  {
    var (t, e) := sched[0];
    var th, b := a.threads[t], Advance(a, t, e);
    var late := Fate(b, sched[1..], t);
    assert Fits(th);
    WorkOf(a, t, e);
    WorkGoesOn(a.store, th.task, th.phase, e);
    StartsSomewhere(a.store, th.task, th.phase, e);
    LooksAlike(a, sched, q, t);
    PlainIsNamed(th.task);
    assert Effective(a.store, th.task, th.phase, e);
    ServedAtOnce(a.store, q, th.task, th.phase, e, late);
    if b.threads[t].phase.Finished? { FinishedStays(b.store, th.task, b.threads[t].phase, late, 2); }
    forall x | x != th.task.path ensures SameAt(q.db, Handle(q, RequestOf(th.task), ServingEnv(a, sched)).0.db, x) {
      HandledElsewhere(q, th.task, ServingEnv(a, sched), x);
    }
  }

  /** A request that will fail without touching anything has its effect, none, when it decides. */
  lemma DoomFits(a: System, sched: Schedule, q: State)
    requires SerialInv(a, sched, q) && ServedNow(a, sched)
    requires Advance(a, sched[0].0, sched[0].1).threads[sched[0].0].phase.Resolved?
    ensures Inside(a.threads[sched[0].0].phase)
    ensures Doomed(Advance(a, sched[0].0, sched[0].1), sched[1..], sched[0].0)
    ensures StepFits(a, sched, q, q)
    ensures Handle(q, RequestOf(a.threads[sched[0].0].task), ServingEnv(a, sched)) == (q, Failed)
  {
    var (t, e) := sched[0];
    var th := a.threads[t];
    assert Fits(th);
    assert Inside(th.phase);
    WorkOf(a, t, e);
    StartsSomewhere(a.store, th.task, th.phase, e);
    LooksAlike(a, sched, q, t);
    FailsAtOnce(a.store, q, th.task, e);
    IdleStepFits(a, sched, q);
  }

  /** The step of a request that is its effect: done as a whole in the other store it keeps the
      two abreast, and answers what the request will be answered. */
  lemma ServiceStaysAbreast(a: System, sched: Schedule, q: State)
    requires SerialInv(a, sched, q) && ServedNow(a, sched) && AtRest(Play(a, sched))
    ensures var t := sched[0].0;
      var (q', r) := Handle(q, RequestOf(a.threads[t].task), ServingEnv(a, sched));
      && SerialInv(Advance(a, t, sched[0].1), sched[1..], q')
      && Inside(a.threads[t].phase) && ValidEnv(ServingEnv(a, sched))
      && t < |Play(a, sched).threads| && Answered(Play(a, sched).threads[t].phase)
      && r == Play(a, sched).threads[t].phase.reply
  {
    var (t, e) := sched[0];
    var b := Advance(a, t, e);
    var q' := Handle(q, RequestOf(a.threads[t].task), ServingEnv(a, sched)).0;
    AdvanceKeepsSystem(a, sched);
    assert sched[0] in sched;
    FateIsValid(b, sched[1..], t);
    PlayKeepsThreads(b, sched[1..]);
    if b.threads[t].phase.Resolved? {
      DoomFits(a, sched, q);
      WorkStaysAbreast(a, sched, q, q);
      DoomComesTrue(b, sched[1..], t);
    } else {
      EffectFits(a, sched, q);
      WorkStaysAbreast(a, sched, q, q');
      if Underway(b.threads[t].phase) {
        PromiseComesTrue(b, sched[1..], t);
      } else {
        AnswerStays(b, sched[1..], t);
        AnsweredPromise(b, sched[1..], t);
      }
    }
  }

  lemma AnsweredPromise(a: System, sched: Schedule, t: Tid)
    requires t < |a.threads| && a.threads[t].phase.Finished?
    ensures Promise(a, sched, t) == (a.store, a.threads[t].phase)
  {
    FinishedStays(a.store, a.threads[t].task, a.threads[t].phase, Fate(a, sched, t), 2);
  }

  lemma {:induction false} FateIsValid(a: System, sched: Schedule, t: Tid)
    requires ValidEnvs(sched)
    ensures ValidEnv(Fate(a, sched, t))
    decreases |sched|
  {
    Outcomes(true);
    if sched != [] {
      assert sched[0] in sched;
      FateIsValid(Advance(a, sched[0].0, sched[0].1), sched[1..], t);
    }
  }

  lemma AdvanceKeepsThreads(a: System, t: Tid, e: Env)
    ensures |Advance(a, t, e).threads| == |a.threads|
    ensures forall u: Tid :: u < |a.threads| ==> Advance(a, t, e).threads[u].task == a.threads[u].task
  { }

  lemma {:induction false} PlayKeepsThreads(a: System, sched: Schedule)
    ensures |Play(a, sched).threads| == |a.threads|
    ensures forall u: Tid :: u < |a.threads| ==> Play(a, sched).threads[u].task == a.threads[u].task
    decreases |sched|
  {
    if sched != [] {
      AdvanceKeepsThreads(a, sched[0].0, sched[0].1);
      PlayKeepsThreads(Advance(a, sched[0].0, sched[0].1), sched[1..]);
    }
  }

  /** No request is between its change on disk and its record. */
  ghost predicate AtRest(a: System)
  {
    forall t: Tid :: t < |a.threads| ==> !Underway(a.threads[t].phase)
  }

  // ---------- the order ----------

  /** What the requests of a run are answered. */
  ghost function Replies(s: State, script: Script): (rs: seq<Reply>)
    ensures |rs| == |script|
    decreases |script|
  {
    if script == [] then []
    else
      var (s', r) := Handle(s, script[0].0, script[0].1);
      [r] + Replies(s', script[1..])
  }

  /** Entry i of the order is the request of handler who[i], done at step at[i] of the schedule,
      a step of that handler while it has its lock. */
  ghost predicate EntryFits(a: System, sched: Schedule, script: Script, who: seq<Tid>, at: seq<nat>, i: nat)
    requires i < |script| == |who| == |at|
  {
    && who[i] < |a.threads| && at[i] < |sched| && sched[at[i]].0 == who[i]
    && script[i].0 == RequestOf(a.threads[who[i]].task) && ValidEnv(script[i].1)
    && var b := Play(a, sched[..at[i]]);
      who[i] < |b.threads| && Inside(b.threads[who[i]].phase)
  }

  ghost predicate AnsweredWith(b: System, t: Tid, r: Reply)
  {
    t < |b.threads| && Answered(b.threads[t].phase) && b.threads[t].phase.reply == r
  }

  /** The answers of the requests in their order are those of the handlers. */
  ghost predicate AnswersFit(b: System, q: State, script: Script, who: seq<Tid>)
  {
    && |script| == |who|
    && forall i :: 0 <= i < |who| ==> AnsweredWith(b, who[i], Replies(q, script)[i])
  }

  ghost predicate EntriesFit(a: System, sched: Schedule, script: Script, who: seq<Tid>, at: seq<nat>)
  {
    |script| == |who| == |at| && forall i: nat :: i < |who| ==> EntryFits(a, sched, script, who, at, i)
  }

  /** Later entries at later steps, no handler twice. */
  predicate InOrder(who: seq<Tid>, at: seq<nat>)
  {
    |who| == |at| && forall i, j :: 0 <= i < j < |who| ==> at[i] < at[j] && who[i] != who[j]
  }

  /** The store after the schedule is what the requests of the script make of q one after the
      other, with the same answers and in the order of their steps. */
  ghost predicate SerialOrder(a: System, sched: Schedule, q: State, script: Script, who: seq<Tid>, at: seq<nat>)
  {
    var b := Play(a, sched);
    && Run(q, script) == b.store
    && AnswersFit(b, q, script, who)
    && EntriesFit(a, sched, script, who, at)
    && InOrder(who, at)
  }

  /** The order has exactly the requests that are answered in the end and had had no effect
      before. */
  ghost predicate Covers(a: System, sched: Schedule, who: seq<Tid>)
  {
    var b := Play(a, sched);
    && |b.threads| == |a.threads|
    && (forall t :: t in who ==> t < |a.threads| && !Served(a, sched, t))
    && (forall t: Tid :: t < |a.threads| && !Served(a, sched, t) && Answered(b.threads[t].phase) ==> t in who)
  }

  function OneLater(at: seq<nat>): (r: seq<nat>)
    ensures |r| == |at| && forall i :: 0 <= i < |at| ==> r[i] == at[i] + 1
  {
    seq(|at|, i requires 0 <= i < |at| => at[i] + 1)
  }

  lemma RestEqualsStore(a: System, q: State)
    requires SerialInv(a, [], q) && AtRest(a)
    ensures q == a.store
  {
    forall p ensures SameAt(a.store.db, q.db, p) {
      assert Untaken(a, p);
    }
    SameEverywhere(a.store.db, q.db);
  }

  lemma EntryLater(a: System, sched: Schedule, script: Script, who: seq<Tid>, at: seq<nat>, i: nat)
    requires sched != [] && i < |script| == |who| == |at|
    requires EntryFits(Advance(a, sched[0].0, sched[0].1), sched[1..], script, who, at, i)
    ensures EntryFits(a, sched, script, who, OneLater(at), i)
  {
    var k := at[i];
    AdvanceKeepsThreads(a, sched[0].0, sched[0].1);
    assert sched[..k + 1][1..] == sched[1..][..k];
    assert sched[..k + 1][0] == sched[0];
  }

  /** A step without an effect shifts the order by one. */
  lemma OrderLater(a: System, sched: Schedule, q: State, script: Script, who: seq<Tid>, at: seq<nat>)
    requires sched != []
    requires SerialOrder(Advance(a, sched[0].0, sched[0].1), sched[1..], q, script, who, at)
    ensures SerialOrder(a, sched, q, script, who, OneLater(at))
  {
    forall i: nat | i < |who| ensures EntryFits(a, sched, script, who, OneLater(at), i) {
      EntryLater(a, sched, script, who, at, i);
    }
  }

  lemma EntryAfter(
      a: System, sched: Schedule, script: Script, who: seq<Tid>, at: seq<nat>, x: (Request, Env), t: Tid, i: nat)
    requires i < |script| == |who| == |at| && EntryFits(a, sched, script, who, at, i)
    ensures EntryFits(a, sched, [x] + script, [t] + who, [0] + at, i + 1)
  {
    assert ([x] + script)[i + 1] == script[i] && ([t] + who)[i + 1] == who[i] && ([0] + at)[i + 1] == at[i];
  }

  lemma EntriesAfter(
      a: System, sched: Schedule, script: Script, who: seq<Tid>, at: seq<nat>, x: (Request, Env))
    requires sched != [] && sched[0].0 < |a.threads| && Inside(a.threads[sched[0].0].phase)
    requires x.0 == RequestOf(a.threads[sched[0].0].task) && ValidEnv(x.1)
    requires EntriesFit(a, sched, script, who, at)
    ensures EntriesFit(a, sched, [x] + script, [sched[0].0] + who, [0] + at)
  {
    var t := sched[0].0;
    assert sched[..0] == [];
    forall i: nat | i < |who| + 1 ensures EntryFits(a, sched, [x] + script, [t] + who, [0] + at, i) {
      if i > 0 { EntryAfter(a, sched, script, who, at, x, t, i - 1); }
    }
  }

  lemma RunOne(q: State, x: (Request, Env), script: Script)
    ensures var (q', r) := Handle(q, x.0, x.1);
      Run(q, [x] + script) == Run(q', script) && Replies(q, [x] + script) == [r] + Replies(q', script)
  {
    assert ([x] + script)[1..] == script;
  }

  lemma OneMoreAnswer(b: System, r: Reply, rs: seq<Reply>, t: Tid, who: seq<Tid>, i: nat)
    requires |rs| == |who| && i < |[t] + who| && AnsweredWith(b, t, r)
    requires forall k :: 0 <= k < |who| ==> AnsweredWith(b, who[k], rs[k])
    ensures AnsweredWith(b, ([t] + who)[i], ([r] + rs)[i])
  {
    if i > 0 {
      assert ([t] + who)[i] == who[i - 1] && ([r] + rs)[i] == rs[i - 1];
    }
  }

  lemma AnswersAfter(b: System, q: State, x: (Request, Env), script: Script, t: Tid, who: seq<Tid>)
    requires var (q', r) := Handle(q, x.0, x.1); AnswersFit(b, q', script, who) && AnsweredWith(b, t, r)
    ensures AnswersFit(b, q, [x] + script, [t] + who)
  {
    var (q', r) := Handle(q, x.0, x.1);
    RunOne(q, x, script);
    forall i | 0 <= i < |[t] + who| ensures AnsweredWith(b, ([t] + who)[i], Replies(q, [x] + script)[i]) {
      OneMoreAnswer(b, r, Replies(q', script), t, who, i);
    }
  }

  /** A request that has its effect now comes first. */
  lemma OrderAfter(
      a: System, sched: Schedule, q: State, x: (Request, Env), script: Script, who: seq<Tid>, at: seq<nat>)
    requires sched != [] && sched[0].0 < |a.threads| && Inside(a.threads[sched[0].0].phase)
    requires x.0 == RequestOf(a.threads[sched[0].0].task) && ValidEnv(x.1) && sched[0].0 !in who
    requires SerialOrder(a, sched, Handle(q, x.0, x.1).0, script, who, at) && forall i :: 0 <= i < |at| ==> at[i] > 0
    requires var t, b := sched[0].0, Play(a, sched);
      t < |b.threads| && Answered(b.threads[t].phase) && Handle(q, x.0, x.1).1 == b.threads[t].phase.reply
    ensures SerialOrder(a, sched, q, [x] + script, [sched[0].0] + who, [0] + at)
  {
    RunOne(q, x, script);
    AnswersAfter(Play(a, sched), q, x, script, sched[0].0, who);
    EntriesAfter(a, sched, script, who, at, x);
    AscendsAfter(sched[0].0, who, at);
  }

  lemma AscendsAfter(t: Tid, who: seq<Tid>, at: seq<nat>)
    requires InOrder(who, at) && t !in who && forall i :: 0 <= i < |at| ==> at[i] > 0
    ensures InOrder([t] + who, [0] + at)
  {
    var who', at' := [t] + who, [0] + at;
    forall i, j | 0 <= i < j < |who'| ensures at'[i] < at'[j] && who'[i] != who'[j] {
      assert who'[j] == who[j - 1] && at'[j] == at[j - 1];
      if i > 0 { assert who'[i] == who[i - 1] && at'[i] == at[i - 1]; }
    }
  }

  lemma CoversLater(a: System, sched: Schedule, who: seq<Tid>)
    requires SystemOk(a, sched) && sched != [] && !ServedNow(a, sched)
    requires Covers(Advance(a, sched[0].0, sched[0].1), sched[1..], who)
    ensures Covers(a, sched, who)
  {
    var (t, e) := sched[0];
    var b := Advance(a, t, e);
    AdvanceKeepsSystem(a, sched);
    forall u: Tid | u < |a.threads| ensures Served(a, sched, u) <==> Served(b, sched[1..], u) {
      if u != t { ServedElsewhere(a, sched, u); } else if Served(a, sched, u) { ServedStays(a, sched, u); }
    }
  }

  lemma CoversAfter(a: System, sched: Schedule, who: seq<Tid>)
    requires SystemOk(a, sched) && ServedNow(a, sched)
    requires Covers(Advance(a, sched[0].0, sched[0].1), sched[1..], who)
    ensures sched[0].0 !in who && Covers(a, sched, [sched[0].0] + who)
  {
    var (t, e) := sched[0];
    var b := Advance(a, t, e);
    AdvanceKeepsSystem(a, sched);
    forall u: Tid | u < |a.threads| && u != t ensures Served(a, sched, u) <==> Served(b, sched[1..], u) {
      ServedElsewhere(a, sched, u);
    }
  }

  lemma {:induction false} Serialize(a: System, sched: Schedule, q: State)
    returns (script: Script, who: seq<Tid>, at: seq<nat>)
    requires SerialInv(a, sched, q) && AtRest(Play(a, sched))
    ensures SerialOrder(a, sched, q, script, who, at) && Covers(a, sched, who)
    decreases |sched|
  {
    if sched == [] {
      RestEqualsStore(a, q);
      return [], [], [];
    }
    var (t, e) := sched[0];
    var b := Advance(a, t, e);
    var at';
    if ServedNow(a, sched) {
      var x := (RequestOf(a.threads[t].task), ServingEnv(a, sched));
      ServiceStaysAbreast(a, sched, q);
      script, who, at' := Serialize(b, sched[1..], Handle(q, x.0, x.1).0);
      CoversAfter(a, sched, who);
      OrderLater(a, sched, Handle(q, x.0, x.1).0, script, who, at');
      OrderAfter(a, sched, q, x, script, who, OneLater(at'));
      script, who, at := [x] + script, [t] + who, [0] + OneLater(at');
    } else {
      QuietStepStaysAbreast(a, sched, q);
      script, who, at' := Serialize(b, sched[1..], q);
      CoversLater(a, sched, who);
      OrderLater(a, sched, q, script, who, at');
      at := OneLater(at');
    }
  }

  /** Any number of changes, deletions and new directories over any store, before their first
      step. */
  ghost predicate PlainStart(a: System, sched: Schedule)
  {
    && Unstarted(a) && WellFormed(a.store.disk) && ValidEnvs(sched)
    && forall t: Tid :: t < |a.threads| ==> PlainTask(a.threads[t].task)
  }

  /** However such requests interleave and whatever fails around them: once none is between its
      change on disk and its record, disk and tables are what the answered requests make of the
      first store one after the other, each done as a whole; each is answered the same; and the
      order is that of one step of each while it has its lock, so a request that was answered
      before another had its lock comes before it. */
  lemma EveryInterleavingIsSerial(a: System, sched: Schedule)
    returns (script: Script, who: seq<Tid>, at: seq<nat>)
    requires PlainStart(a, sched) && AtRest(Play(a, sched))
    ensures SerialOrder(a, sched, a.store, script, who, at)
    ensures |Play(a, sched).threads| == |a.threads|
    ensures forall t: Tid :: t < |a.threads| ==> (t in who <==> Answered(Play(a, sched).threads[t].phase))
  {
    FreshLocks(a);
    forall p ensures SameAt(a.store.db, a.store.db, p) { SameAtItself(a.store.db, p); }
    script, who, at := Serialize(a, sched, a.store);
    forall t: Tid | t < |a.threads| && t in who ensures Answered(Play(a, sched).threads[t].phase) {
      AnsweredEntry(Play(a, sched), a.store, script, who, t);
    }
  }

  lemma AnsweredEntry(b: System, q: State, script: Script, who: seq<Tid>, t: Tid)
    requires AnswersFit(b, q, script, who) && t in who
    ensures t < |b.threads| && Answered(b.threads[t].phase)
  {
    var i :| 0 <= i < |who| && who[i] == t;
    assert AnsweredWith(b, who[i], Replies(q, script)[i]);
  }

  // ---------- the order respects time ----------

  lemma {:induction false} PlaySplit(a: System, sched: Schedule, k: nat)
    requires k <= |sched|
    ensures Play(a, sched) == Play(Play(a, sched[..k]), sched[k..])
    decreases k
  {
    if k > 0 {
      var b := Advance(a, sched[0].0, sched[0].1);
      PlaySplit(b, sched[1..], k - 1);
      assert sched[..k][1..] == sched[1..][..k - 1] && sched[1..][k - 1..] == sched[k..];
    } else {
      assert sched[..0] == [] && sched[0..] == sched;
    }
  }

  lemma PlaySplitAt(a: System, sched: Schedule, k: nat, m: nat)
    requires k <= m <= |sched|
    ensures Play(a, sched[..m]) == Play(Play(a, sched[..k]), sched[k..m])
  {
    PlaySplit(a, sched[..m], k);
    assert sched[..m][..k] == sched[..k] && sched[..m][k..] == sched[k..m];
  }

  /** A handler that has had all its locks never waits again. */
  lemma {:induction false} NeverWaitsAgain(a: System, sched: Schedule, t: Tid)
    requires t < |a.threads| && !a.threads[t].phase.Waiting?
    ensures t < |Play(a, sched).threads| && !Play(a, sched).threads[t].phase.Waiting?
    decreases |sched|
  {
    if sched != [] {
      MovesOn(a, sched[0].0, sched[0].1, t);
      NeverWaitsAgain(Advance(a, sched[0].0, sched[0].1), sched[1..], t);
    }
  }

  lemma MovesOn(a: System, u: Tid, e: Env, t: Tid)
    requires t < |a.threads| && !a.threads[t].phase.Waiting?
    ensures t < |Advance(a, u, e).threads| && !Advance(a, u, e).threads[t].phase.Waiting?
  {
    if Inside(a.threads[t].phase) { WorkGoesOn(a.store, a.threads[t].task, a.threads[t].phase, e); }
  }

  /** A request that was answered when another still waited for its lock comes before it. */
  lemma OrderRespectsTime(
      a: System, sched: Schedule, script: Script, who: seq<Tid>, at: seq<nat>, k: nat, i: nat, j: nat)
    requires EntriesFit(a, sched, script, who, at) && InOrder(who, at)
    requires i < |who| && j < |who| && k <= |sched|
    requires var b := Play(a, sched[..k]);
      && who[i] < |b.threads| && Answered(b.threads[who[i]].phase)
      && who[j] < |b.threads| && b.threads[who[j]].phase.Waiting?
    ensures i < j
  {
    assert EntryFits(a, sched, script, who, at, i) && EntryFits(a, sched, script, who, at, j);
    if at[i] >= k {
      PlaySplitAt(a, sched, k, at[i]);
      AnswerStays(Play(a, sched[..k]), sched[k..at[i]], who[i]);
    }
    if at[j] < k {
      PlaySplitAt(a, sched, at[j], k);
      NeverWaitsAgain(Play(a, sched[..at[j]]), sched[at[j]..k], who[j]);
    }
    assert at[i] < at[j];
  }

  // ---------- what holds of runs holds of interleavings ----------

  lemma OrderIsARun(a: System, sched: Schedule, script: Script, who: seq<Tid>, at: seq<nat>)
    requires PlainStart(a, sched) && SerialOrder(a, sched, a.store, script, who, at)
    ensures Proper(script) && NamedAll(script)
  {
    forall x | x in script ensures ValidEnv(x.1) && Named(x.0) {
      var i :| 0 <= i < |script| && script[i] == x;
      assert EntryFits(a, sched, script, who, at, i) && PlainTask(a.threads[who[i]].task);
    }
  }

  /** Disk and tables agree at rest if each request, where it comes in the order, is harmless;
      and every version that was there is still there. */
  lemma AgreementAtRest(a: System, sched: Schedule, p: Path)
    returns (script: Script, who: seq<Tid>, at: seq<nat>)
    requires PlainStart(a, sched) && AtRest(Play(a, sched)) && Consistent(a.store) && p in a.store.db.head
    ensures SerialOrder(a, sched, a.store, script, who, at) && Recorded(Play(a, sched).store.db)
    ensures AllHarmless(a.store, script) ==> Consistent(Play(a, sched).store)
    ensures Kept(a.store.db, p, Play(a, sched).store.db, p)
  {
    script, who, at := EveryInterleavingIsSerial(a, sched);
    OrderIsARun(a, sched, script, who, at);
    if AllHarmless(a.store, script) { RunKeepsConsistent(a.store, script); }
    RunKeepsHistory(a.store, script, p);
    NothingIsCarried(a, sched, script, who, at);
    StaysInItsPlace(a.store, script, p);
  }

  ghost predicate NoCarry(script: Script)
  {
    forall x :: x in script ==> !x.0.Carry?
  }

  lemma NothingIsCarried(a: System, sched: Schedule, script: Script, who: seq<Tid>, at: seq<nat>)
    requires PlainStart(a, sched) && SerialOrder(a, sched, a.store, script, who, at)
    ensures NoCarry(script)
  {
    forall x | x in script ensures !x.0.Carry? {
      var i :| 0 <= i < |script| && script[i] == x;
      assert EntryFits(a, sched, script, who, at, i) && PlainTask(a.threads[who[i]].task);
    }
  }

  lemma {:induction false} StaysInItsPlace(s: State, script: Script, p: Path)
    requires NoCarry(script)
    ensures Destination(s, script, p) == p
    decreases |script|
  {
    if script != [] {
      assert script[0] in script;
      StaysInItsPlace(Handle(s, script[0].0, script[0].1).0, script[1..], p);
    }
  }
}
