/** Disk and tables while many requests are under way, when nothing fails once the disk has been
    changed: whole trees may be renamed beside requests elsewhere. */
module InterleavedDisk {
  import opened Wrappers
  import opened Bytes
  import opened Paths
  import opened Tables
  import opened Disk
  import opened Handlers
  import opened Store
  import opened Agreement
  import opened Interleaving

  /** What a request may change: its path, or the trees at the two ends of a rename. */
  predicate Reaches(task: Task, q: Path)
  {
    if task.Carrying? then AtOrUnder(task.from, q) || AtOrUnder(task.to, q) else q == task.path
  }

  /** Neither end of the rename lies above the path or below it. */
  predicate Away(from: Path, to: Path, p: Path)
  {
    !Under(from, p) && !Under(to, p) && !Under(p, from) && !Under(p, to)
  }

  /** A rename and another request are at work at the same time only away from each other. */
  ghost predicate ApartNow(a: System)
  {
    forall t: Tid, u: Tid, p ::
      t < |a.threads| && u < |a.threads| && t != u && Inside(a.threads[t].phase) && Inside(a.threads[u].phase)
      && a.threads[t].task.Carrying? && Touches(a.threads[u].task, p) ==>
        Away(a.threads[t].task.from, a.threads[t].task.to, p)
  }

  /** No failure after the disk was changed; renames between ordinary names, not onto a live
      file, without stored case twins when they commit, and away from other requests at work. */
  ghost predicate Calm(a: System, t: Tid, e: Env)
  {
    && ValidEnv(e) && Undisturbed(e.tx, MAX_ATTEMPTS) && e.readOk && e.revertOk
    && ApartNow(a) && Spares(a, t)
    && (t < |a.threads| && a.threads[t].task.Carrying? ==>
          var from, to := a.threads[t].task.from, a.threads[t].task.to;
          && (a.threads[t].phase.Holding? && from != to ==>
                !Reserved(from) && !Reserved(to) && !Live(a.store.db, to))
          && (a.threads[t].phase.MovedNode? ==> NoTwins(a.store.db, from)))
  }

  ghost predicate Settled(s: State, p: Path)
  {
    p in s.db.meta ==> Shows(s.disk, p, s.db.meta[p])
  }

  ghost predicate AllSettled(s: State, task: Task)
  {
    forall q :: Reaches(task, q) && !Reserved(q) ==> Settled(s, q)
  }

  /** The tree of from is at to, where no ordinary row is, and there is room to move it back. */
  ghost predicate Carried(s: State, from: Path, to: Path)
  {
    && !Reserved(from) && !Reserved(to) && Unnested(from, to) && from != "" && to != ""
    && (forall q :: q in s.disk ==> !AtOrUnder(from, q))
    && to in s.disk
    && (forall p :: p in s.db.meta && AtOrUnder(from, p) && !Reserved(p) ==>
          Shows(s.disk, Relocate(from, to, p), s.db.meta[p]))
    && (forall p :: p in s.db.meta && AtOrUnder(to, p) ==> Reserved(p))
    && (forall x :: x in Ancestors(from) ==> x in s.disk && s.disk[x].Dir?)
  }

  ghost predicate HoldsBytes(s: State, p: Path, m: Mutation, before: Data, now: Data)
  {
    && !Malformed(m) && now == Applied(m, before)
    && p in s.disk && s.disk[p].File? && s.disk[p].content == now
    && (Live(s.db, p) ==> before == ContentOf(s.db.meta[p]))
  }

  /** What is on disk while a handler is between its steps. */
  ghost predicate BytesOk(s: State, task: Task, ph: Phase)
  {
    match ph
    case OnDisk(_, before) =>
      task.Changing? && (Reserved(task.path) || (!Malformed(task.mutation)
        && HoldsBytes(s, task.path, task.mutation, before, Applied(task.mutation, before))))
    case ReadBack(_, before, full) =>
      task.Changing? && (Reserved(task.path) || HoldsBytes(s, task.path, task.mutation, before, full))
    case OffDisk(_) => task.Erasing?
    case DirMade => task.MakingDir? && (Reserved(task.path) || (task.path in s.disk && s.disk[task.path].Dir?))
    case MovedNode => task.Carrying? && Carried(s, task.from, task.to)
    case Refused => task.Carrying? && Carried(s, task.from, task.to)
    case _ => true
  }

  /** Some handler that is half-way may have changed what is at q. */
  ghost predicate HalfWayAt(a: System, q: Path)
  {
    exists t: Tid :: t < |a.threads| && MidWrite(a.threads[t].phase) && Reaches(a.threads[t].task, q)
  }

  /** Wherever nobody is half-way the disk is as the meta rows say. */
  ghost predicate DiskInv(a: System)
  {
    && Inv(a) && WellFormed(a.store.disk)
    && (forall t: Tid :: t < |a.threads| ==> NamedTask(a.threads[t].task))
    && (forall t: Tid :: t < |a.threads| ==> BytesOk(a.store, a.threads[t].task, a.threads[t].phase))
    && (forall q :: !Reserved(q) && !HalfWayAt(a, q) ==> Settled(a.store, q))
  }

  // ---------- frames ----------

  /** Rows and node of a path are as they were; marked files may be gone. */
  ghost predicate Untouched(s: State, s': State, q: Path)
    requires Dense(s.db) && Dense(s'.db)
  {
    && SameRows(s.db, s'.db, q)
    && (q in s.disk && (!Reserved(q) || s.disk[q].Dir?) ==> q in s'.disk && s'.disk[q] == s.disk[q])
  }

  /** A new node is where the request reaches, or above one of its paths, or a conflict copy
      beside one. */
  ghost predicate Placed(task: Task, q: Path)
  {
    || Reaches(task, q)
    || exists p :: Touches(task, p) && Ancestors(q) <= Ancestors(p) && (q in Ancestors(p) || Reserved(q))
  }

  ghost predicate GoodStep(s: State, task: Task, s': State)
    requires Dense(s.db)
  {
    && Recorded(s'.db) && WellFormed(s'.disk)
    && (forall q :: !Reaches(task, q) ==> Untouched(s, s', q))
    && (forall q :: q in s'.disk && q !in s.disk ==> Placed(task, q))
  }

  lemma PlacedAbove(task: Task, p: Path, q: Path)
    requires Touches(task, p) && q in Ancestors(p)
    ensures Placed(task, q)
  {
    forall x | x in Ancestors(q) ensures x in Ancestors(p) {
      UnderTransitive(x, q, p);
    }
  }

  lemma PlacedBeside(task: Task, p: Path, q: Path)
    requires Touches(task, p) && Reserved(q) && Ancestors(q) == Ancestors(p)
    ensures Placed(task, q)
  { }

  /** Rows outside the reach of a request stay. */
  lemma RowsStay(s: State, task: Task, ph: Phase, e: Env, q: Path)
    requires Recorded(s.db) && !Reaches(task, q)
    requires task.Carrying? && ph.MovedNode? ==> NoTwins(s.db, task.from)
    ensures Recorded(WorkStep(s, task, ph, e).0.db) && SameRows(s.db, WorkStep(s, task, ph, e).0.db, q)
  {
    WorkKeepsRecorded(s, task, ph, e);
    if task.Carrying? && ph.MovedNode? && task.from != task.to {
      CommitOrRefuse(s, task.from, task.to, e);
      if Transact(s.db, Rename(task.from, task.to), e.tx).Some? {
        RenameLeaves(s.db, task.from, task.to, RenameTx(s.db, task.from, task.to).value, q);
      }
    } else {
      assert !Touches(task, q);
      if task.Carrying? { CarryTables(s, task.from, task.to, ph, e); } else { WorkLeaves(s, task, ph, e, q); }
    }
  }

  lemma CarryTables(s: State, from: Path, to: Path, ph: Phase, e: Env)
    requires !ph.MovedNode? || from == to
    ensures CarryStep(s, from, to, ph, e).0.db == s.db
  { }

  // ---------- the disk's part of each step ----------

  ghost predicate DiskFrame(d: Tree, task: Task, d': Tree)
  {
    && WellFormed(d')
    && (forall q :: !Reaches(task, q) && q in d && (!Reserved(q) || d[q].Dir?) ==> q in d' && d'[q] == d[q])
    && (forall q :: q in d' && q !in d ==> Placed(task, q))
  }

  lemma ChangeFrame(s: State, p: Path, m: Mutation, base: nat, ph: Phase, e: Env)
    requires WellFormed(s.disk) && p != "" && ValidEnv(e)
    ensures DiskFrame(s.disk, Changing(p, m, base), ChangeStep(s, p, m, base, ph, e).0.disk)
  {
    var task := Changing(p, m, base);
    var d' := ChangeStep(s, p, m, base, ph, e).0.disk;
    if ph.Holding? && !Malformed(m) && Stale(ResolveHead(s, p), base) {
      ConflictKeepsDisk(s, p, m, base, ResolveHead(s, p), e);
      forall q | q in d' && q !in s.disk ensures Placed(task, q) {
        if q in Ancestors(p) { PlacedAbove(task, p, q); } else { PlacedBeside(task, p, q); }
      }
    } else if ph.Resolved? && !Malformed(m) {
      MutatedFile(s.disk, p, m, e.wroteAt);
      NewAbove(s.disk, p, m, e.wroteAt);
      forall q | q in d' && q !in s.disk ensures Placed(task, q) {
        if q != p { PlacedAbove(task, p, q); }
      }
    } else {
      assert d' == s.disk;
    }
  }

  lemma NewAbove(d: Tree, p: Path, m: Mutation, now: int)
    requires !Malformed(m)
    ensures forall q :: q in MutateFile(d, p, m, now).0 && q !in d ==> q == p || q in Ancestors(p)
  { }

  lemma EraseFrame(s: State, p: Path, ph: Phase, e: Env)
    requires WellFormed(s.disk)
    ensures DiskFrame(s.disk, Erasing(p), EraseStep(s, p, ph, e).0.disk)
  {
    if ph.Holding? && RemoveNode(s.disk, p).Some? { RemovedNode(s.disk, p); }
  }

  lemma MakeDirFrame(s: State, p: Path, ph: Phase, e: Env)
    requires WellFormed(s.disk) && p != ""
    ensures DiskFrame(s.disk, MakingDir(p), MakeDirStep(s, p, ph, e).0.disk)
  {
    var d' := MakeDirStep(s, p, ph, e).0.disk;
    if ph.Holding? && MakeDirs(s.disk, Ancestors(p) + {p}).Some? {
      MadeDirs(s.disk, p, Ancestors(p) + {p});
      forall q | q in d' && q !in s.disk ensures Placed(MakingDir(p), q) {
        if q != p { PlacedAbove(MakingDir(p), p, q); }
      }
    }
  }

  /** What a rename does on disk, accepted or not. */
  ghost predicate TreeMoved(d: Tree, from: Path, to: Path, r: (Tree, bool))
  {
    var (d', ok) := r;
    && WellFormed(d')
    && (forall q :: q in d && !AtOrUnder(from, q) && q != to ==> q in d' && d'[q] == d[q])
    && (forall q :: q in d' && q !in d ==> AtOrUnder(to, q) || q in Ancestors(to))
    && (if ok then
          && Unnested(from, to) && from in d && !(to in d && d[to].Dir?)
          && (forall q :: q in d ==> !Under(to, q))
          && (forall q :: q in d' ==> !AtOrUnder(from, q))
          && (forall q :: q in d && AtOrUnder(from, q) ==>
              Relocate(from, to, q) in d' && d'[Relocate(from, to, q)] == d[q])
          && (forall x :: x in Ancestors(from) ==> x in d' && d'[x].Dir?)
        else
          forall q :: q in d ==> q in d' && d'[q] == d[q])
  }

  lemma TreeMoves(d: Tree, from: Path, to: Path)
    requires WellFormed(d) && from != "" && to != "" && from != to
    ensures TreeMoved(d, from, to, RenameNode(d, from, to))
  {
    if MakeDirs(d, Ancestors(to)).Some? {
      MadeDirs(d, to, Ancestors(to));
      if RenameNode(d, from, to).1 { MovesWhole(d, from, to); }
    }
  }

  lemma MovesWhole(d: Tree, from: Path, to: Path)
    requires WellFormed(d) && from != "" && to != "" && from != to && RenameNode(d, from, to).1
    ensures TreeMoved(d, from, to, RenameNode(d, from, to))
  {
    RenamedNode(d, from, to);
    MadeDirs(d, to, Ancestors(to));
    var d0, d' := MakeDirs(d, Ancestors(to)).value, RenameNode(d, from, to).0;
    ShiftLeavesRoom(d0, from, to, d');
    forall q | q in d && !AtOrUnder(from, q) && q != to ensures q in d' && d'[q] == d[q] {
      assert Relocate(from, to, q) == q && q in d0;
    }
    forall q | q in d' && q !in d ensures AtOrUnder(to, q) || q in Ancestors(to) {
      var p :| p in d0 && p != to && Relocate(from, to, p) == q;
      if AtOrUnder(from, p) { RelocatedLiesInTarget(from, to, p); }
    }
    forall q | q in d && AtOrUnder(from, q) ensures Relocate(from, to, q) in d' && d'[Relocate(from, to, q)] == d[q] {
      assert q in d0 && q != to;
    }
  }

  lemma MoveFrame(d: Tree, task: Task, from: Path, to: Path)
    requires WellFormed(d) && from != "" && to != "" && from != to
    requires task.Carrying? && ((task.from == from && task.to == to) || (task.from == to && task.to == from))
    ensures DiskFrame(d, task, RenameNode(d, from, to).0)
  {
    TreeMoves(d, from, to);
    var d' := RenameNode(d, from, to).0;
    forall q | q in d' && q !in d ensures Placed(task, q) {
      if !AtOrUnder(to, q) { PlacedAbove(task, to, q); }
    }
  }

  lemma CarryFrame(s: State, from: Path, to: Path, ph: Phase, e: Env)
    requires WellFormed(s.disk) && from != "" && to != "" && from != to
    ensures DiskFrame(s.disk, Carrying(from, to), CarryStep(s, from, to, ph, e).0.disk)
  {
    if ph.Holding? {
      MoveFrame(s.disk, Carrying(from, to), from, to);
    } else if ph.Refused? {
      MoveFrame(s.disk, Carrying(from, to), to, from);
    } else {
      CarryDiskStays(s, from, to, ph, e);
    }
  }

  lemma CarryDiskStays(s: State, from: Path, to: Path, ph: Phase, e: Env)
    requires !ph.Holding? && !ph.Refused?
    ensures CarryStep(s, from, to, ph, e).0.disk == s.disk
  { }

  lemma WorkFrame(s: State, task: Task, ph: Phase, e: Env)
    requires WellFormed(s.disk) && NamedTask(task) && ValidEnv(e) && Inside(ph)
    requires task.Carrying? && task.from == task.to ==> !ph.Refused?
    ensures DiskFrame(s.disk, task, WorkStep(s, task, ph, e).0.disk)
  {
    match task
    case Changing(p, m, base) =>
      assert Touches(task, p);
      ChangeFrame(s, p, m, base, ph, e);
    case Erasing(p) => EraseFrame(s, p, ph, e);
    case MakingDir(p) =>
      assert Touches(task, p);
      MakeDirFrame(s, p, ph, e);
    case Carrying(from, to) =>
      assert Touches(task, from) && Touches(task, to);
      if from == to { SameEnds(s, from, ph, e); } else { CarryFrame(s, from, to, ph, e); }
  }

  /** A rename to itself ends at once. */
  lemma SameEnds(s: State, p: Path, ph: Phase, e: Env)
    requires WellFormed(s.disk) && !ph.Refused?
    ensures DiskFrame(s.disk, Carrying(p, p), CarryStep(s, p, p, ph, e).0.disk)
  {
    assert CarryStep(s, p, p, ph, e).0.disk == s.disk;
  }

  lemma WorkIsGood(s: State, task: Task, ph: Phase, e: Env)
    requires Recorded(s.db) && WellFormed(s.disk) && NamedTask(task) && ValidEnv(e) && Inside(ph)
    requires task.Carrying? && task.from == task.to ==> !ph.Refused?
    requires task.Carrying? && ph.MovedNode? ==> NoTwins(s.db, task.from)
    ensures GoodStep(s, task, WorkStep(s, task, ph, e).0)
  {
    var s' := WorkStep(s, task, ph, e).0;
    WorkKeepsRecorded(s, task, ph, e);
    WorkFrame(s, task, ph, e);
    forall q | !Reaches(task, q) ensures Untouched(s, s', q) {
      RowsStay(s, task, ph, e, q);
    }
  }

  // ---------- the handler's own paths ----------

  ghost predicate StepDone(r: (State, Phase), task: Task)
  {
    BytesOk(r.0, task, r.1) && (!MidWrite(r.1) ==> AllSettled(r.0, task))
  }

  lemma ChangeStepDone(s: State, p: Path, m: Mutation, base: nat, ph: Phase, e: Env)
    requires Recorded(s.db) && WellFormed(s.disk) && p != "" && ValidEnv(e) && Inside(ph)
    requires BytesOk(s, Changing(p, m, base), ph) && (!MidWrite(ph) ==> AllSettled(s, Changing(p, m, base)))
    requires Undisturbed(e.tx, MAX_ATTEMPTS) && e.readOk
    requires ph.Resolved? ==> !Malformed(m)
    ensures StepDone(ChangeStep(s, p, m, base, ph, e), Changing(p, m, base))
  {
    assert Reaches(Changing(p, m, base), p);
    if !Reserved(p) {
      match ph {
        case Holding =>
          if !Malformed(m) && Stale(ResolveHead(s, p), base) {
            ConflictOutcome(s, p, m, base, ResolveHead(s, p), e);
            ConflictKeepsDisk(s, p, m, base, ResolveHead(s, p), e);
          }
        case Resolved(head) => MutatedFile(s.disk, p, m, e.wroteAt);
        case OnDisk(_, before) => PutIsItself(m, before);
        case ReadBack(head, _, full) => SaveAppends(s.db, p, m, head.present, full, e.now);
        case _ =>
      }
    }
  }

  lemma PutIsItself(m: Mutation, before: Data)
    requires !Malformed(m)
    ensures m.Put? ==> Applied(m, before) == m.data
  { }

  lemma EraseStepDone(s: State, p: Path, ph: Phase, e: Env)
    requires Recorded(s.db) && WellFormed(s.disk) && Inside(ph)
    requires BytesOk(s, Erasing(p), ph) && (!MidWrite(ph) ==> AllSettled(s, Erasing(p)))
    requires Undisturbed(e.tx, MAX_ATTEMPTS)
    ensures StepDone(EraseStep(s, p, ph, e), Erasing(p))
  {
    assert Reaches(Erasing(p), p);
    if ph.OffDisk? { RemovalAppends(s.db, p, ph.size, e.now); }
  }

  lemma MakeDirStepDone(s: State, p: Path, ph: Phase, e: Env)
    requires Recorded(s.db) && WellFormed(s.disk) && p != "" && Inside(ph)
    requires BytesOk(s, MakingDir(p), ph) && (!MidWrite(ph) ==> AllSettled(s, MakingDir(p)))
    ensures StepDone(MakeDirStep(s, p, ph, e), MakingDir(p))
  {
    assert Reaches(MakingDir(p), p);
    if MakeDirs(s.disk, Ancestors(p) + {p}).Some? { MadeDirs(s.disk, p, Ancestors(p) + {p}); }
  }

  lemma NotBelowBoth(from: Path, to: Path, q: Path)
    requires Unnested(from, to)
    ensures !(AtOrUnder(from, q) && AtOrUnder(to, q))
  {
    if AtOrUnder(from, q) && AtOrUnder(to, q) { AncestorsAreNested(from, to, q); }
  }

  /** Moving a settled tree to a free place carries it. */
  lemma MoveCarries(s: State, from: Path, to: Path)
    requires WellFormed(s.disk) && from != "" && to != "" && from != to && !Reserved(from) && !Reserved(to)
    requires AllSettled(s, Carrying(from, to)) && !Live(s.db, to) && RenameNode(s.disk, from, to).1
    ensures Carried(s.(disk := RenameNode(s.disk, from, to).0), from, to)
  {
    var d, d' := s.disk, RenameNode(s.disk, from, to).0;
    TreeMoves(d, from, to);
    RelocatedLiesInTarget(from, to, from);
    forall p | p in s.db.meta && AtOrUnder(from, p) && !Reserved(p)
      ensures Shows(d', Relocate(from, to, p), s.db.meta[p])
    {
      assert Settled(s, p);
    }
    forall p | p in s.db.meta && AtOrUnder(to, p) ensures Reserved(p) {
      assert Reserved(p) || Settled(s, p);
    }
  }

  lemma CarryOutDone(s: State, from: Path, to: Path, e: Env)
    requires WellFormed(s.disk) && from != "" && to != ""
    requires AllSettled(s, Carrying(from, to))
    requires from != to ==> !Reserved(from) && !Reserved(to) && !Live(s.db, to)
    ensures StepDone(CarryStep(s, from, to, Holding, e), Carrying(from, to))
  {
    if from != to && e.diskOk {
      TreeMoves(s.disk, from, to);
      if RenameNode(s.disk, from, to).1 {
        MoveCarries(s, from, to);
      } else {
        StillSettled(s, s.(disk := RenameNode(s.disk, from, to).0), Carrying(from, to));
      }
    }
  }

  lemma StillSettled(s: State, s': State, task: Task)
    requires AllSettled(s, task) && s'.db == s.db
    requires forall q :: q in s.disk ==> q in s'.disk && s'.disk[q] == s.disk[q]
    ensures AllSettled(s', task)
  {
    forall q | Reaches(task, q) && !Reserved(q) ensures Settled(s', q) {
      assert Settled(s, q);
    }
  }

  /** Once the rows have followed, the target's rows are shown and the source has none. */
  lemma CommitSettles(s: State, from: Path, to: Path, t': Tables)
    requires Recorded(s.db) && Recorded(t') && Carried(s, from, to) && Relocated(s.db, from, to, t')
    ensures AllSettled(s.(db := t'), Carrying(from, to))
  {
    forall q | Reaches(Carrying(from, to), q) && !Reserved(q) && q in t'.meta ensures Shows(s.disk, q, t'.meta[q]) {
      var p :| p in s.db.meta && Relocate(from, to, p) == q;
      if AtOrUnder(from, p) {
        RelocatedLiesInTarget(from, to, p);
        if p != from { RelocateReserves(from, to, p); }
      }
    }
  }

  lemma CarryRowsDone(s: State, from: Path, to: Path, e: Env)
    requires Recorded(s.db) && Carried(s, from, to) && NoTwins(s.db, from)
    ensures StepDone(CarryStep(s, from, to, MovedNode, e), Carrying(from, to))
  {
    CommitOrRefuse(s, from, to, e);
    if Transact(s.db, Rename(from, to), e.tx).Some? {
      RenameMovesFiles(s.db, from, to);
      CommitSettles(s, from, to, RenameTx(s.db, from, to).value);
      FinishedDone(s.(db := RenameTx(s.db, from, to).value), Carrying(from, to),
          Finished(NO_HEAD, Accepted(0, None), false));
    } else {
      RefusedDone(s, from, to);
    }
  }

  lemma FinishedDone(s: State, task: Task, ph: Phase)
    requires AllSettled(s, task) && ph.Finished?
    ensures StepDone((s, ph), task)
  { }

  lemma RefusedDone(s: State, from: Path, to: Path)
    requires Carried(s, from, to)
    ensures StepDone((s, Refused), Carrying(from, to))
  { }

  /** Moving a carried tree back settles it. */
  lemma BackSettles(s: State, from: Path, to: Path)
    requires WellFormed(s.disk) && Carried(s, from, to)
    ensures AllSettled(s.(disk := RenameNode(s.disk, to, from).0), Carrying(from, to))
  {
    var d, d' := s.disk, RenameNode(s.disk, to, from).0;
    assert MakeDirs(d, Ancestors(from)).Some?;
    assert RenameNode(d, to, from).1;
    TreeMoves(d, to, from);
    forall q | Reaches(Carrying(from, to), q) && !Reserved(q) && q in s.db.meta ensures Shows(d', q, s.db.meta[q]) {
      assert AtOrUnder(from, q);
      NotBelowBoth(from, to, q);
      RelocatedLiesInTarget(from, to, q);
      RelocateBack(from, to, q);
      assert Shows(d, Relocate(from, to, q), s.db.meta[q]);
    }
  }

  lemma WorkStepDone(s: State, task: Task, ph: Phase, e: Env)
    requires Recorded(s.db) && WellFormed(s.disk) && NamedTask(task) && ValidEnv(e) && Inside(ph)
    requires BytesOk(s, task, ph) && (!MidWrite(ph) ==> AllSettled(s, task))
    requires Undisturbed(e.tx, MAX_ATTEMPTS) && e.readOk && e.revertOk
    requires ph.Resolved? ==> task.Changing? && !Malformed(task.mutation)
    requires task.Carrying? && ph.Holding? && task.from != task.to ==>
      !Reserved(task.from) && !Reserved(task.to) && !Live(s.db, task.to)
    requires task.Carrying? && ph.MovedNode? ==> NoTwins(s.db, task.from)
    ensures StepDone(WorkStep(s, task, ph, e), task)
  {
    match task
    case Changing(p, m, base) =>
      assert Touches(task, p);
      ChangeStepDone(s, p, m, base, ph, e);
    case Erasing(p) => EraseStepDone(s, p, ph, e);
    case MakingDir(p) =>
      assert Touches(task, p);
      MakeDirStepDone(s, p, ph, e);
    case Carrying(from, to) =>
      assert Touches(task, from) && Touches(task, to);
      match ph {
        case Holding => CarryOutDone(s, from, to, e);
        case MovedNode => CarryRowsDone(s, from, to, e);
        case Refused =>
          BackSettles(s, from, to);
          FinishedDone(s.(disk := RenameNode(s.disk, to, from).0), task, Finished(NO_HEAD, Failed, false));
        case _ =>
      }
  }

  // ---------- the others meanwhile ----------

  /** Requests at work at the same time reach no common path. */
  lemma NoCommonPath(a: System, t: Tid, u: Tid, q: Path)
    requires LocksOk(a) && ApartNow(a) && t < |a.threads| && u < |a.threads| && t != u
    requires Inside(a.threads[t].phase) && Inside(a.threads[u].phase)
    ensures !(Reaches(a.threads[t].task, q) && Reaches(a.threads[u].task, q))
  {
    assert Fits(a.threads[t]) && Fits(a.threads[u]);
    var x, y := a.threads[t].task, a.threads[u].task;
    if Reaches(x, q) && Reaches(y, q) {
      var p := End(x, q);
      var r := End(y, q);
      NoSharedPath(a, t, u, p);
      NoSharedPath(a, t, u, r);
      AncestorsAreNested(p, r, q);
    }
  }

  /** The path of a request through which it reaches q. */
  function End(task: Task, q: Path): (p: Path)
    requires Reaches(task, q)
    ensures Touches(task, p) && AtOrUnder(p, q)
  {
    if !task.Carrying? then task.path else if AtOrUnder(task.from, q) then task.from else task.to
  }

  /** Nothing that another request at work puts anywhere lands at or below an end. */
  lemma NothingNewThere(a: System, t: Tid, u: Tid, end: Path, q: Path)
    requires LocksOk(a) && ApartNow(a) && t < |a.threads| && u < |a.threads| && t != u
    requires Inside(a.threads[t].phase) && Inside(a.threads[u].phase) && a.threads[u].task.Carrying?
    requires Touches(a.threads[u].task, end) && !Reserved(end) && end != "" && AtOrUnder(end, q)
    ensures !Placed(a.threads[t].task, q)
  {
    var task := a.threads[t].task;
    NoCommonPath(a, t, u, q);
    forall p | Touches(task, p) && Ancestors(q) <= Ancestors(p)
      ensures q !in Ancestors(p) && !Reserved(q)
    {
      assert Away(a.threads[u].task.from, a.threads[u].task.to, p);
      assert q != end ==> end in Ancestors(q);
      assert q == end ==> !Reserved(q);
    }
  }

  lemma AboveIsFree(a: System, t: Tid, u: Tid, x: Path)
    requires LocksOk(a) && ApartNow(a) && t < |a.threads| && u < |a.threads| && t != u
    requires Inside(a.threads[t].phase) && Inside(a.threads[u].phase) && a.threads[u].task.Carrying?
    requires x in Ancestors(a.threads[u].task.from)
    ensures !Reaches(a.threads[t].task, x)
  {
    var task := a.threads[t].task;
    if Reaches(task, x) {
      var p := End(task, x);
      assert Away(a.threads[u].task.from, a.threads[u].task.to, p);
      UnderTransitive(p, x, a.threads[u].task.from);
    }
  }

  lemma StaysCarried(a: System, t: Tid, u: Tid, s': State)
    requires LocksOk(a) && ApartNow(a) && t < |a.threads| && u < |a.threads| && t != u
    requires Inside(a.threads[t].phase) && Inside(a.threads[u].phase) && a.threads[u].task.Carrying?
    requires Recorded(a.store.db) && GoodStep(a.store, a.threads[t].task, s')
    requires Carried(a.store, a.threads[u].task.from, a.threads[u].task.to)
    ensures Carried(s', a.threads[u].task.from, a.threads[u].task.to)
  {
    var s, task, from, to := a.store, a.threads[t].task, a.threads[u].task.from, a.threads[u].task.to;
    forall q | AtOrUnder(from, q) || AtOrUnder(to, q) ensures !Reaches(task, q) && Untouched(s, s', q) {
      NoCommonPath(a, t, u, q);
    }
    forall q | q in s'.disk ensures !AtOrUnder(from, q) {
      if AtOrUnder(from, q) && q !in s.disk { NothingNewThere(a, t, u, from, q); }
    }
    forall p | p in s'.db.meta && AtOrUnder(from, p) && !Reserved(p)
      ensures Shows(s'.disk, Relocate(from, to, p), s'.db.meta[p])
    {
      RelocatedLiesInTarget(from, to, p);
      var r := Relocate(from, to, p);
      if p != from { RelocateReserves(from, to, p); }
      assert Untouched(s, s', p) && Untouched(s, s', r) && Shows(s.disk, r, s.db.meta[p]);
    }
    forall x | x in Ancestors(from) ensures x in s'.disk && s'.disk[x].Dir? {
      AboveIsFree(a, t, u, x);
      assert Untouched(s, s', x);
    }
  }

  lemma OtherBytesOk(a: System, t: Tid, u: Tid, s': State)
    requires DiskInv(a) && ApartNow(a) && t < |a.threads| && u < |a.threads| && t != u && Inside(a.threads[t].phase)
    requires GoodStep(a.store, a.threads[t].task, s')
    ensures BytesOk(s', a.threads[u].task, a.threads[u].phase)
  {
    var other := a.threads[u];
    if Inside(other.phase) {
      if other.task.Carrying? {
        if other.phase.MovedNode? || other.phase.Refused? { StaysCarried(a, t, u, s'); }
      } else {
        NoCommonPath(a, t, u, other.task.path);
        assert Untouched(a.store, s', other.task.path);
      }
    }
  }

  lemma OwnPathsSettled(a: System, t: Tid)
    requires DiskInv(a) && ApartNow(a) && t < |a.threads| && Inside(a.threads[t].phase) && !MidWrite(a.threads[t].phase)
    ensures AllSettled(a.store, a.threads[t].task)
  {
    forall q | Reaches(a.threads[t].task, q) && !Reserved(q) ensures Settled(a.store, q) {
      if HalfWayAt(a, q) {
        var u: Tid :| u < |a.threads| && MidWrite(a.threads[u].phase) && Reaches(a.threads[u].task, q);
        NoCommonPath(a, t, u, q);
      }
    }
  }

  lemma OwnStep(a: System, t: Tid, e: Env)
    requires DiskInv(a) && Calm(a, t, e) && t < |a.threads| && Inside(a.threads[t].phase)
    ensures var r := WorkStep(a.store, a.threads[t].task, a.threads[t].phase, e);
      StepDone(r, a.threads[t].task) && GoodStep(a.store, a.threads[t].task, r.0)
  {
    var th := a.threads[t];
    if !MidWrite(th.phase) { OwnPathsSettled(a, t); }
    assert Knows(a.store.db, th) && BytesOk(a.store, th.task, th.phase);
    WorkStepDone(a.store, th.task, th.phase, e);
    WorkIsGood(a.store, th.task, th.phase, e);
  }

  lemma WorkKeepsDiskInv(a: System, t: Tid, e: Env)
    requires DiskInv(a) && Calm(a, t, e) && t < |a.threads| && Inside(a.threads[t].phase)
    ensures DiskInv(Advance(a, t, e))
  {
    WorkKeepsInv(a, t, e);
    OwnStep(a, t, e);
    var th := a.threads[t];
    var (s', ph) := WorkStep(a.store, th.task, th.phase, e);
    var b := Goto(a, t, s', ph);
    forall u: Tid | u < |b.threads| ensures BytesOk(s', b.threads[u].task, b.threads[u].phase) {
      if u != t { OtherBytesOk(a, t, u, s'); }
    }
    forall q | !Reserved(q) && !HalfWayAt(b, q) ensures Settled(s', q) {
      PathSettled(a, t, s', ph, q);
    }
  }

  lemma PathSettled(a: System, t: Tid, s': State, ph: Phase, q: Path)
    requires DiskInv(a) && t < |a.threads| && Inside(a.threads[t].phase)
    requires StepDone((s', ph), a.threads[t].task) && GoodStep(a.store, a.threads[t].task, s')
    requires !Reserved(q) && !HalfWayAt(Goto(a, t, s', ph), q)
    ensures Settled(s', q)
  {
    var b := Goto(a, t, s', ph);
    assert b.threads[t].task == a.threads[t].task && b.threads[t].phase == ph;
    if !Reaches(a.threads[t].task, q) {
      assert forall u: Tid :: u < |a.threads| && u != t ==> b.threads[u] == a.threads[u];
      assert !HalfWayAt(a, q);
      assert Settled(a.store, q) && Untouched(a.store, s', q);
    }
  }

  /** Taking and giving back a lock changes nothing but the handler, which is not half-way. */
  lemma LockStepIsQuiet(a: System, t: Tid, e: Env)
    requires Inv(a) && t < |a.threads| && !Inside(a.threads[t].phase)
    ensures var b := Advance(a, t, e);
      && b.store == a.store && |b.threads| == |a.threads| && b.threads == a.threads[t := b.threads[t]]
      && b.threads[t].task == a.threads[t].task
      && !MidWrite(a.threads[t].phase) && !MidWrite(b.threads[t].phase)
      && BytesOk(b.store, b.threads[t].task, b.threads[t].phase)
  { }

  lemma StillHalfWay(a: System, b: System, t: Tid, q: Path)
    requires t < |a.threads| == |b.threads| && b.threads == a.threads[t := b.threads[t]]
    requires !MidWrite(a.threads[t].phase)
    ensures HalfWayAt(a, q) ==> HalfWayAt(b, q)
  {
    if HalfWayAt(a, q) {
      var u: Tid :| u < |a.threads| && MidWrite(a.threads[u].phase) && Reaches(a.threads[u].task, q);
      assert b.threads[u] == a.threads[u];
    }
  }

  lemma LockStepKeepsDiskInv(a: System, t: Tid, e: Env)
    requires DiskInv(a) && t < |a.threads| && !Inside(a.threads[t].phase)
    ensures DiskInv(Advance(a, t, e))
  {
    LockStepKeepsInv(a, t, e);
    LockStepIsQuiet(a, t, e);
    var b := Advance(a, t, e);
    forall u: Tid | u < |b.threads| ensures BytesOk(b.store, b.threads[u].task, b.threads[u].phase) {
      assert u != t ==> BytesOk(a.store, a.threads[u].task, a.threads[u].phase);
    }
    forall q | !Reserved(q) && !HalfWayAt(b, q) ensures Settled(b.store, q) {
      StillHalfWay(a, b, t, q);
    }
  }

  /** Whichever handler moves next without a failure, the disk stays as the rows say wherever
      nobody is half-way. */
  lemma AdvanceKeepsDiskInv(a: System, t: Tid, e: Env)
    requires DiskInv(a) && Calm(a, t, e)
    ensures DiskInv(Advance(a, t, e))
  {
    if t < |a.threads| {
      if Inside(a.threads[t].phase) { WorkKeepsDiskInv(a, t, e); } else { LockStepKeepsDiskInv(a, t, e); }
    }
  }
}
