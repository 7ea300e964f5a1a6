/** What every interleaving of requests guarantees, and where the guarantees end. */
module InterleavedRuns {
  import opened Wrappers
  import opened Bytes
  import opened Paths
  import opened Like
  import opened Tables
  import opened Disk
  import opened Handlers
  import opened Store
  import opened Agreement
  import opened Failures
  import opened Runs
  import opened Interleaving
  import opened InterleavedDisk

  ghost predicate CalmPlay(a: System, sched: Schedule)
    decreases |sched|
  {
    sched == [] || (Calm(a, sched[0].0, sched[0].1) && CalmPlay(Advance(a, sched[0].0, sched[0].1), sched[1..]))
  }

  lemma {:induction false} PlayKeepsDiskInv(a: System, sched: Schedule)
    requires DiskInv(a) && CalmPlay(a, sched)
    ensures DiskInv(Play(a, sched))
    decreases |sched|
  {
    if sched != [] {
      AdvanceKeepsDiskInv(a, sched[0].0, sched[0].1);
      PlayKeepsDiskInv(Advance(a, sched[0].0, sched[0].1), sched[1..]);
    }
  }

  /** Any number of requests before their first step, over a store in agreement. */
  ghost predicate FreshAndAgreed(a: System)
  {
    Fresh(a) && Consistent(a.store) && forall t: Tid :: t < |a.threads| ==> NamedTask(a.threads[t].task)
  }

  lemma FreshIsSettled(a: System)
    requires FreshAndAgreed(a)
    ensures DiskInv(a)
  {
    FreshLocks(a);
    forall q | !Reserved(q) ensures Settled(a.store, q) { }
  }

  /** In every interleaving without failures after a disk change, in which renames of files and
      whole trees are at work only away from other requests at work, neither above nor below
      them: whenever no handler is half-way, disk and tables agree. */
  lemma QuietStoreIsConsistent(a: System, sched: Schedule)
    requires FreshAndAgreed(a) && CalmPlay(a, sched)
    ensures var b := Play(a, sched);
      (forall t: Tid :: t < |b.threads| ==> !MidWrite(b.threads[t].phase)) ==> Consistent(b.store)
  {
    FreshIsSettled(a);
    PlayKeepsDiskInv(a, sched);
    var b := Play(a, sched);
    if forall t: Tid :: t < |b.threads| ==> !MidWrite(b.threads[t].phase) {
      forall p | p in b.store.db.meta && !Reserved(p) ensures Shows(b.store.disk, p, b.store.db.meta[p]) {
        assert !HalfWayAt(b, p);
        assert Settled(b.store, p);
      }
    }
  }

  // ---------- what an accepted change leaves behind ----------

  /** Where a step leaves the history of a path. */
  ghost function MovesTo(a: System, t: Tid, e: Env, p: Path): Path
  {
    if t < |a.threads| && Inside(a.threads[t].phase)
    then WorkMovesTo(a.store, a.threads[t].task, a.threads[t].phase, e, p)
    else p
  }

  /** Where the step of a request at work leaves the history of a path. */
  ghost function WorkMovesTo(s: State, task: Task, ph: Phase, e: Env, x: Path): Path
  {
    if task.Carrying? && ph.MovedNode? && task.from != task.to && Transact(s.db, Rename(task.from, task.to), e.tx).Some?
    then RowImage(task.from, task.to, x) else x
  }

  ghost function Whither(a: System, sched: Schedule, p: Path): Path
    decreases |sched|
  {
    if sched == [] then p
    else Whither(Advance(a, sched[0].0, sched[0].1), sched[1..], MovesTo(a, sched[0].0, sched[0].1, p))
  }

  lemma SameTablesKeep(t: Tables, p: Path)
    requires Dense(t)
    ensures Kept(t, p, t, p)
  { }

  lemma GrownKeeps(t: Tables, p: Path, rec: Record, data: Option<Data>, t': Tables, x: Path)
    requires Recorded(t) && Recorded(t') && Extended(t, p, rec, data, t') && x in t.head
    ensures x in t'.head && Kept(t, x, t', x)
  {
    ExtendedKeeps(t, p, rec, data, t', x);
    assert |History(t, x)| >= 1;
  }

  lemma SaveKeeps(t: Tables, p: Path, m: Mutation, present: bool, full: Data, now: int, x: Path)
    requires Recorded(t) && x in t.head
    ensures var r := Body(t, SaveOp(p, m, present, full, now));
      r.Some? && Recorded(r.value.0) && x in r.value.0.head && Kept(t, x, r.value.0, x)
  {
    SaveAppends(t, p, m, present, full, now);
    GrownKeeps(t, p, Record(now, Sha256(full), |full|, if present then Modified else Created),
      if m.Put? && full == [] then None else Some(full), Body(t, SaveOp(p, m, present, full, now)).value.0, x);
  }

  lemma RemoveKeeps(t: Tables, p: Path, size: nat, now: int, x: Path)
    requires Recorded(t) && x in t.head
    ensures var r := Body(t, Remove(p, size, now));
      r.Some? && Recorded(r.value.0) && x in r.value.0.head && Kept(t, x, r.value.0, x)
  {
    RemovalAppends(t, p, size, now);
    GrownKeeps(t, p, Record(now, NoDigest, size, Deleted), None, Body(t, Remove(p, size, now)).value.0, x);
  }

  lemma ChangeStepKeeps(s: State, p: Path, m: Mutation, base: nat, ph: Phase, e: Env, x: Path)
    requires Recorded(s.db) && x in s.db.head
    ensures var t' := ChangeStep(s, p, m, base, ph, e).0.db;
      Recorded(t') && x in t'.head && Kept(s.db, x, t', x)
  {
    ChangeTables(s, p, m, base, ph, e);
    if ph.ReadBack? && Undisturbed(e.tx, MAX_ATTEMPTS) {
      SaveKeeps(s.db, p, m, ph.head.present, ph.full, e.now, x);
    } else {
      SameTablesKeep(s.db, x);
    }
  }

  lemma EraseStepKeeps(s: State, p: Path, ph: Phase, e: Env, x: Path)
    requires Recorded(s.db) && x in s.db.head
    ensures var t' := EraseStep(s, p, ph, e).0.db;
      Recorded(t') && x in t'.head && Kept(s.db, x, t', x)
  {
    EraseTables(s, p, ph, e);
    if ph.OffDisk? && Undisturbed(e.tx, MAX_ATTEMPTS) {
      RemoveKeeps(s.db, p, ph.size, e.now, x);
    } else {
      SameTablesKeep(s.db, x);
    }
  }

  lemma MakeDirStepKeeps(s: State, p: Path, ph: Phase, e: Env, x: Path)
    requires Recorded(s.db) && x in s.db.head
    ensures var t' := MakeDirStep(s, p, ph, e).0.db;
      Recorded(t') && x in t'.head && Kept(s.db, x, t', x)
  {
    DirRowKeepsRecorded(s.db, p);
    var t' := MakeDirStep(s, p, ph, e).0.db;
    assert t' != s.db ==> SameFile(s.db, x, t', x);
  }

  lemma CommitKeeps(s: State, from: Path, to: Path, e: Env, x: Path)
    requires Recorded(s.db) && x in s.db.head && from != to
    ensures var t' := CarryStep(s, from, to, MovedNode, e).0.db;
      var y := if Transact(s.db, Rename(from, to), e.tx).Some? then RowImage(from, to, x) else x;
      Recorded(t') && y in t'.head && Kept(s.db, x, t', y)
  {
    CommitOrRefuse(s, from, to, e);
    if Transact(s.db, Rename(from, to), e.tx).Some? {
      RenameKeepsVersions(s.db, from, to, x);
    } else {
      SameTablesKeep(s.db, x);
    }
  }

  lemma CarryStepKeeps(s: State, from: Path, to: Path, ph: Phase, e: Env, x: Path)
    requires Recorded(s.db) && x in s.db.head
    ensures var t' := CarryStep(s, from, to, ph, e).0.db;
      var y := if ph.MovedNode? && from != to && Transact(s.db, Rename(from, to), e.tx).Some?
               then RowImage(from, to, x) else x;
      Recorded(t') && y in t'.head && Kept(s.db, x, t', y)
  {
    if ph.MovedNode? && from != to {
      CommitKeeps(s, from, to, e, x);
    } else {
      CarryTables(s, from, to, ph, e);
      SameTablesKeep(s.db, x);
    }
  }

  lemma WorkKeepsVersions(s: State, task: Task, ph: Phase, e: Env, x: Path)
    requires Recorded(s.db) && x in s.db.head
    ensures var t' := WorkStep(s, task, ph, e).0.db;
      var y := WorkMovesTo(s, task, ph, e, x);
      Recorded(t') && y in t'.head && Kept(s.db, x, t', y)
  {
    match task
    case Changing(p, m, base) => ChangeStepKeeps(s, p, m, base, ph, e, x);
    case Erasing(p) => EraseStepKeeps(s, p, ph, e, x);
    case MakingDir(p) => MakeDirStepKeeps(s, p, ph, e, x);
    case Carrying(from, to) => CarryStepKeeps(s, from, to, ph, e, x);
  }

  /** No step alters or drops a recorded version. */
  lemma StepKeepsVersions(a: System, t: Tid, e: Env, x: Path)
    requires Recorded(a.store.db) && x in a.store.db.head
    ensures var b := Advance(a, t, e);
      && Recorded(b.store.db) && MovesTo(a, t, e, x) in b.store.db.head
      && Kept(a.store.db, x, b.store.db, MovesTo(a, t, e, x))
  {
    if t < |a.threads| && Inside(a.threads[t].phase) {
      WorkKeepsVersions(a.store, a.threads[t].task, a.threads[t].phase, e, x);
    } else {
      SameTablesKeep(a.store.db, x);
      assert Advance(a, t, e).store == a.store;
    }
  }

  lemma {:induction false} PlayKeepsVersions(a: System, sched: Schedule, x: Path)
    requires Recorded(a.store.db) && x in a.store.db.head
    ensures var b := Play(a, sched);
      && Recorded(b.store.db) && Whither(a, sched, x) in b.store.db.head
      && Kept(a.store.db, x, b.store.db, Whither(a, sched, x))
    decreases |sched|
  {
    SameTablesKeep(a.store.db, x);
    if sched != [] {
      var (t, e) := sched[0];
      var b, y := Advance(a, t, e), MovesTo(a, t, e, x);
      StepKeepsVersions(a, t, e, x);
      PlayKeepsVersions(b, sched[1..], y);
      KeptTransitive(a.store.db, x, b.store.db, y, Play(a, sched).store.db, Whither(a, sched, x));
    }
  }

  /** Recording a change takes the next version and, for an ordinary live file, records the
      change of the last one. */
  lemma RecordsNext(s: State, p: Path, m: Mutation, base: nat, head: FileHead, before: Data, full: Data, e: Env)
    requires Recorded(s.db) && HeadCurrent(s.db, Changing(p, m, base), head)
    requires Reserved(p) || HoldsBytes(s, p, m, before, full)
    requires Undisturbed(e.tx, MAX_ATTEMPTS)
    ensures var n := |History(s.db, p)|;
      var (s', ph) := RecordChange(s, p, m, head, full, e);
      && Recorded(s'.db) && |History(s'.db, p)| == n + 1
      && ph.Finished? && ph.reply.Accepted? && ph.reply.version == n + 1
      && (Live(s.db, p) && base != 0 ==> base == n)
      && (Live(s.db, p) && !Reserved(p) ==>
            n >= 1 && ContentAt(s'.db, p, n + 1) == Applied(m, ContentAt(s.db, p, n)))
  {
    SaveAppends(s.db, p, m, head.present, full, e.now);
    if Live(s.db, p) {
      assert MetaOk(s.db, p);
      DenseCounter(s.db, p);
      assert RecordOk(s.db, Key(p, s.db.head[p]));
    }
  }

  /** The step that records a change, in a state that calm steps have led to. */
  lemma RecordingStep(b: System, t: Tid, e: Env)
    requires DiskInv(b) && t < |b.threads| && b.threads[t].phase.ReadBack?
    requires Undisturbed(e.tx, MAX_ATTEMPTS)
    ensures b.threads[t].task.Changing? && !Malformed(b.threads[t].task.mutation)
    ensures var task := b.threads[t].task;
      var p, n := task.path, |History(b.store.db, task.path)|;
      var c := Advance(b, t, e);
      && Recorded(c.store.db) && |History(c.store.db, p)| == n + 1
      && c.threads[t].phase.Finished? && c.threads[t].phase.reply.Accepted?
      && c.threads[t].phase.reply.version == n + 1
      && (Live(b.store.db, p) && task.base != 0 ==> task.base == n)
      && (Live(b.store.db, p) && !Reserved(p) ==>
            n >= 1 && ContentAt(c.store.db, p, n + 1) == Applied(task.mutation, ContentAt(b.store.db, p, n)))
  {
    var task, ph := b.threads[t].task, b.threads[t].phase;
    assert Knows(b.store.db, b.threads[t]) && BytesOk(b.store, task, ph);
    RecordsNext(b.store, task.path, task.mutation, task.base, ph.head, ph.before, ph.full, e);
  }

  /** Version n+1 of the file at q is the change m of version n. */
  ghost predicate ChangeOf(t: Tables, q: Path, n: int, m: Mutation)
  {
    && Recorded(t) && !Malformed(m)
    && 1 <= n < |History(t, q)|
    && ContentAt(t, q, n + 1) == Applied(m, ContentAt(t, q, n))
  }

  /** Handler t is about to record its change of a live file with an ordinary name. */
  ghost predicate Recording(b: System, t: Tid)
  {
    && t < |b.threads| && b.threads[t].phase.ReadBack? && b.threads[t].task.Changing?
    && Live(b.store.db, b.threads[t].task.path) && !Reserved(b.threads[t].task.path)
  }

  /** The handler was answered the version after n, the base it named if it named one. */
  ghost predicate AnsweredAfter(c: System, t: Tid, n: int)
  {
    && t < |c.threads| && c.threads[t].phase.Finished? && c.threads[t].task.Changing?
    && c.threads[t].phase.reply.Accepted? && c.threads[t].phase.reply.version == n + 1
    && (c.threads[t].task.base != 0 ==> n == c.threads[t].task.base)
  }

  lemma RecordedAsChangeOfBase(b: System, t: Tid, e: Env) returns (n: nat)
    requires DiskInv(b) && Recording(b, t) && Undisturbed(e.tx, MAX_ATTEMPTS)
    ensures var c := Advance(b, t, e);
      && AnsweredAfter(c, t, n)
      && Recorded(c.store.db) && b.threads[t].task.path in c.store.db.head
      && ChangeOf(c.store.db, b.threads[t].task.path, n, b.threads[t].task.mutation)
  {
    RecordingStep(b, t, e);
    OldVersionStays(b, t, e);
    n := |History(b.store.db, b.threads[t].task.path)|;
  }

  /** From a fresh start, over every calm interleaving: a change to a live file is recorded as the
      change of exactly the version before it, which is the base its writer named; and so it
      stays for ever, wherever the file is moved and whatever happens or fails later. */
  lemma AcceptedChangesLast(a: System, before: Schedule, t: Tid, e: Env, after: Schedule) returns (n: nat)
    requires FreshAndAgreed(a) && CalmPlay(a, before)
    requires Recording(Play(a, before), t) && Undisturbed(e.tx, MAX_ATTEMPTS)
    ensures var b := Play(a, before);
      var c := Advance(b, t, e);
      && AnsweredAfter(c, t, n)
      && ChangeOf(Play(c, after).store.db, Whither(c, after, b.threads[t].task.path), n, b.threads[t].task.mutation)
  {
    FreshIsSettled(a);
    PlayKeepsDiskInv(a, before);
    n := RecordedLasts(Play(a, before), t, e, after);
  }

  lemma RecordedLasts(b: System, t: Tid, e: Env, after: Schedule) returns (n: nat)
    requires DiskInv(b) && Recording(b, t) && Undisturbed(e.tx, MAX_ATTEMPTS)
    ensures var c := Advance(b, t, e);
      && AnsweredAfter(c, t, n)
      && ChangeOf(Play(c, after).store.db, Whither(c, after, b.threads[t].task.path), n, b.threads[t].task.mutation)
  {
    n := RecordedAsChangeOfBase(b, t, e);
    ChangeOfLasts(Advance(b, t, e), after, b.threads[t].task.path, n, b.threads[t].task.mutation);
  }

  lemma ChangeOfLasts(c: System, after: Schedule, p: Path, n: int, m: Mutation)
    requires p in c.store.db.head && ChangeOf(c.store.db, p, n, m)
    ensures ChangeOf(Play(c, after).store.db, Whither(c, after, p), n, m)
  {
    LastsFrom(c, after, p);
  }

  lemma OldVersionStays(b: System, t: Tid, e: Env)
    requires DiskInv(b) && t < |b.threads| && b.threads[t].phase.ReadBack?
    requires Undisturbed(e.tx, MAX_ATTEMPTS)
    requires b.threads[t].task.Changing? && Live(b.store.db, b.threads[t].task.path)
    ensures var p, n := b.threads[t].task.path, |History(b.store.db, b.threads[t].task.path)|;
      var c := Advance(b, t, e);
      && n >= 1 && p in c.store.db.head && Recorded(c.store.db) && n <= |History(c.store.db, p)|
      && ContentAt(c.store.db, p, n) == ContentAt(b.store.db, p, n)
  {
    var p := b.threads[t].task.path;
    assert MetaOk(b.store.db, p);
    StepKeepsVersions(b, t, e, p);
    KeptContent(b.store.db, p, Advance(b, t, e).store.db, p, |History(b.store.db, p)|);
  }

  /** All versions of a path keep their contents along the rest of a run. */
  lemma LastsFrom(c: System, after: Schedule, p: Path)
    requires Recorded(c.store.db) && p in c.store.db.head
    ensures var d, q := Play(c, after), Whither(c, after, p);
      && Recorded(d.store.db) && |History(c.store.db, p)| <= |History(d.store.db, q)|
      && forall v :: 1 <= v <= |History(c.store.db, p)| ==> ContentAt(d.store.db, q, v) == ContentAt(c.store.db, p, v)
  {
    PlayKeepsVersions(c, after, p);
    var d, q := Play(c, after), Whither(c, after, p);
    forall v | 1 <= v <= |History(c.store.db, p)|
      ensures v <= |History(d.store.db, q)| && ContentAt(d.store.db, q, v) == ContentAt(c.store.db, p, v)
    {
      KeptContent(c.store.db, p, d.store.db, q, v);
    }
  }

  lemma KeptContent(t: Tables, p: Path, t': Tables, p': Path, v: nat)
    requires Recorded(t) && Recorded(t') && Kept(t, p, t', p') && 1 <= v <= |History(t, p)|
    ensures v <= |History(t', p')| && ContentAt(t', p', v) == ContentAt(t, p, v)
  {
    assert History(t', p')[v - 1] == History(t, p)[v - 1];
  }

  // ---------- why the ends of a rename must be away from other requests ----------

  const FILE: Path := "d/f"
  const GOOD: Env := Environment(Clean, true)

  /** A store with one file of two versions, in a directory. */
  function Twice(): State
  {
    State(Tables(map[FILE := Meta(false, |OLD|, 0, Sha256(OLD), 2)],
                 map[FILE := 2],
                 map[Key(FILE, 1) := Record(0, Sha256(NEW), |NEW|, Created),
                     Key(FILE, 2) := Record(0, Sha256(OLD), |OLD|, Modified)],
                 map[Key(FILE, 1) := NEW, Key(FILE, 2) := OLD]),
          map["d" := Dir, FILE := File(OLD, 0)], None)
  }

  /** The client has read version 2. */
  function Writer(held: nat, ph: Phase): Thread
  {
    Thread(Changing(FILE, Put(NEW), 2), held, ph)
  }

  function Renamer(held: nat, ph: Phase): Thread
  {
    Thread(Carrying("d", "e"), held, ph)
  }

  function Pair(s: State, locks: map<Path, Tid>, w: Thread, r: Thread): System
  {
    System(s, locks, [w, r])
  }

  function Start(): System
  {
    Pair(Twice(), map[], Writer(0, Waiting), Renamer(0, Waiting))
  }

  /** The writer takes its lock, looks, and writes the file; then the directory is renamed from
      its first lock to its transaction; then the writer records the file. */
  function Crossing(): Schedule
  {
    [(0, GOOD)] + ([(0, GOOD), (0, GOOD)]
      + ([(1, GOOD), (1, GOOD)] + ([(1, GOOD), (1, GOOD)] + ([(0, GOOD), (0, GOOD)] + []))))
  }

  lemma FileNames()
    ensures Ancestors(FILE) == {"d"} && Ancestors("d") == {} && Ancestors("e") == {}
    ensures Under("d", FILE) && !Reserved(FILE)
    ensures Plan(Carrying("d", "e")) == ["d", "e"]
  {
    forall x | x in Ancestors(FILE) ensures x == "d" {
      assert FILE[|x|] == '/' && |x| == 1;
      assert x == FILE[..1] == "d";
    }
    assert FILE[..1] == "d";
  }

  lemma TwiceIsConsistent()
    ensures Consistent(Twice()) && |History(Twice().db, FILE)| == 2
  {
    FileNames();
    var t := Twice().db;
    assert Dense(t);
    assert RecordOk(t, Key(FILE, 1)) && RecordOk(t, Key(FILE, 2));
    assert MetaOk(t, FILE);
  }

  /** The writer finds its base current and changes the file on disk. */
  lemma WriterWrites() returns (head: FileHead, s2: State)
    ensures head.version == 2 && ChangeStep(Twice(), FILE, Put(NEW), 2, Holding, GOOD) == (Twice(), Resolved(head))
    ensures s2.db == Twice().db && WellFormed(s2.disk) && s2.disk.Keys == {"d", FILE} && s2.disk["d"].Dir?
    ensures ChangeStep(Twice(), FILE, Put(NEW), 2, Resolved(head), GOOD) == (s2, OnDisk(head, OLD))
  {
    FileNames();
    TwiceIsConsistent();
    var s := Twice();
    ResolvedVersion(s, FILE);
    LiveFile(s, FILE);
    head := ResolveHead(s, FILE);
    LiveFileOpens(s, FILE, Put(NEW), GOOD.wroteAt);
    MutatedFile(s.disk, FILE, Put(NEW), GOOD.wroteAt);
    NewAbove(s.disk, FILE, Put(NEW), GOOD.wroteAt);
    s2 := s.(disk := MutateFile(s.disk, FILE, Put(NEW), GOOD.wroteAt).0);
  }

  lemma DirectoryMoves(s: State) returns (s3: State)
    requires s.db == Twice().db && WellFormed(s.disk) && s.disk.Keys == {"d", FILE} && s.disk["d"].Dir?
    ensures CarryStep(s, "d", "e", Holding, GOOD) == (s3, MovedNode) && FILE !in s3.disk && s3.db == s.db
  {
    FileNames();
    assert s.disk + (map x | x in Ancestors("e") && x !in s.disk :: Dir) == s.disk;
    assert RenameNode(s.disk, "d", "e").1;
    TreeMoves(s.disk, "d", "e");
    s3 := s.(disk := RenameNode(s.disk, "d", "e").0);
  }

  /** A rename that meets no failure and no collision commits. */
  lemma Commits(s: State, from: Path, to: Path, e: Env) returns (s': State)
    requires from != to && Undisturbed(e.tx, MAX_ATTEMPTS) && RenameTx(s.db, from, to).Some?
    ensures CarryStep(s, from, to, MovedNode, e) == (s', Finished(NO_HEAD, Accepted(0, None), false))
    ensures s' == s.(db := RenameTx(s.db, from, to).value)
  {
    CommitOrRefuse(s, from, to, e);
    s' := s.(db := RenameTx(s.db, from, to).value);
  }

  /** The rename takes all rows of the file along. */
  lemma RowsMoveToo(s3: State) returns (s4: State)
    requires s3.db == Twice().db
    ensures CarryStep(s3, "d", "e", MovedNode, GOOD) == (s4, Finished(NO_HEAD, Accepted(0, None), false))
    ensures s4.disk == s3.disk && Recorded(s4.db) && FILE !in s4.db.head && FILE !in s4.db.meta
  {
    Outcomes(true);
    RowsFollow();
    s4 := Commits(s3, "d", "e", GOOD);
  }

  lemma RowsFollow()
    ensures var r := RenameTx(Twice().db, "d", "e");
      r.Some? && Recorded(r.value) && FILE !in r.value.head && FILE !in r.value.meta
  {
    TwiceIsConsistent();
    FileNames();
    OneRowTable(Twice().db, "d", "e", FILE);
  }

  lemma PrefixesTell(x: string, y: string, rest: string)
    requires x != y
    ensures x + rest != y + rest
  {
    if |x| == |y| {
      assert (x + rest)[..|x|] == x && (y + rest)[..|x|] == y;
    }
  }

  lemma TreeRowLeaves(from: Path, to: Path, p: Path)
    requires Under(from, p) && from != to
    ensures PathImage(from, to)(p) != p
  {
    PickedRows(from, p);
    UpdateFollowsTree(from, to, p);
    assert p == from + p[|from|..];
    PrefixesTell(to, from, p[|from|..]);
  }

  lemma OneImage(p: Path, image: Path -> Path)
    requires image(p) != p
    ensures Injective({p}, image) && p !in Images({p}, image)
  {
    if p in Images({p}, image) {
      var r := Source({p}, image, p);
    }
  }

  lemma OneRowTable(t: Tables, from: Path, to: Path, p: Path)
    requires Recorded(t) && t.head.Keys == {p} && t.meta.Keys == {p} && Under(from, p) && from != to
    ensures var r := RenameTx(t, from, to);
      r.Some? && Recorded(r.value) && p !in r.value.head && p !in r.value.meta
  {
    var image := PathImage(from, to);
    TreeRowLeaves(from, to, p);
    OneImage(p, image);
    RenameRefusal(t, from, to);
    MoveStaysRecorded(t, image);
    MovedKeys(t, image);
  }

  /** The writer records its file as a new one. */
  lemma WriterRecords(s: State, head: FileHead) returns (s6: State)
    requires Recorded(s.db) && FILE !in s.db.head && FILE !in s.db.meta && FILE !in s.disk
    ensures ChangeStep(s, FILE, Put(NEW), 2, OnDisk(head, OLD), GOOD) == (s, ReadBack(head, OLD, NEW))
    ensures ChangeStep(s, FILE, Put(NEW), 2, ReadBack(head, OLD, NEW), GOOD)
      == (s6, Finished(head, Accepted(1, None), true))
    ensures s6.disk == s.disk && FILE in s6.db.meta
  {
    Outcomes(true);
    SaveAppends(s.db, FILE, Put(NEW), head.present, NEW, GOOD.now);
    s6 := RecordChange(s, FILE, Put(NEW), head, NEW, GOOD).0;
  }

  lemma Unroll(a: System, t: Tid, e: Env, rest: Schedule)
    ensures Play(a, [(t, e)] + rest) == Play(Advance(a, t, e), rest)
  {
    assert ([(t, e)] + rest)[1..] == rest;
  }

  lemma WriterSteps(s: State, locks: map<Path, Tid>, r: Thread, ph: Phase, s1: State, ph1: Phase)
    requires Inside(ph) && ChangeStep(s, FILE, Put(NEW), 2, ph, GOOD) == (s1, ph1)
    ensures Advance(Pair(s, locks, Writer(1, ph), r), 0, GOOD) == Pair(s1, locks, Writer(1, ph1), r)
  { }

  lemma RenamerSteps(s: State, locks: map<Path, Tid>, w: Thread, ph: Phase, s1: State, ph1: Phase)
    requires Inside(ph) && CarryStep(s, "d", "e", ph, GOOD) == (s1, ph1)
    ensures Advance(Pair(s, locks, w, Renamer(2, ph)), 1, GOOD) == Pair(s1, locks, w, Renamer(2, ph1))
  { }

  lemma WriterTakesItsLock(s: State, r: Thread)
    ensures Advance(Pair(s, map[], Writer(0, Waiting), r), 0, GOOD) == Pair(s, map[FILE := 0], Writer(1, Holding), r)
  { }

  lemma RenamerTakesItsLocks(s: State, w: Thread)
    ensures Advance(Advance(Pair(s, map[FILE := 0], w, Renamer(0, Waiting)), 1, GOOD), 1, GOOD)
      == Pair(s, map[FILE := 0, "d" := 1, "e" := 1], w, Renamer(2, Holding))
  {
    FileNames();
    assert Advance(Pair(s, map[FILE := 0], w, Renamer(0, Waiting)), 1, GOOD)
        == Pair(s, map[FILE := 0, "d" := 1], w, Renamer(1, Waiting));
  }

  lemma TwoTurns(a: System, t: Tid, rest: Schedule)
    ensures Play(a, [(t, GOOD), (t, GOOD)] + rest) == Play(Advance(Advance(a, t, GOOD), t, GOOD), rest)
  {
    var one := [(t, GOOD)];
    assert [(t, GOOD), (t, GOOD)] + rest == one + (one + rest);
    Unroll(a, t, GOOD, one + rest);
    Unroll(Advance(a, t, GOOD), t, GOOD, rest);
  }

  lemma ThreeTurns(b2: System, b3: System, b4: System, b5: System)
    requires Advance(Advance(b2, 1, GOOD), 1, GOOD) == b3
    requires Advance(Advance(b3, 1, GOOD), 1, GOOD) == b4
    requires Advance(Advance(b4, 0, GOOD), 0, GOOD) == b5
    ensures Play(b2, [(1, GOOD), (1, GOOD)] + ([(1, GOOD), (1, GOOD)] + ([(0, GOOD), (0, GOOD)] + []))) == b5
  {
    var none: Schedule := [];
    var last := [(0, GOOD), (0, GOOD)] + none;
    TwoTurns(b4, 0, none);
    TwoTurns(b3, 1, last);
    TwoTurns(b2, 1, [(1, GOOD), (1, GOOD)] + last);
  }

  /** The turns of the schedule, one handler after the other. */
  lemma JoinTurns(b0: System, b1: System, b2: System, b3: System, b4: System, b5: System)
    requires Advance(b0, 0, GOOD) == b1
    requires Advance(Advance(b1, 0, GOOD), 0, GOOD) == b2
    requires Advance(Advance(b2, 1, GOOD), 1, GOOD) == b3
    requires Advance(Advance(b3, 1, GOOD), 1, GOOD) == b4
    requires Advance(Advance(b4, 0, GOOD), 0, GOOD) == b5
    ensures Play(b0, Crossing()) == b5
  {
    var third: Schedule := [(1, GOOD), (1, GOOD)] + ([(1, GOOD), (1, GOOD)] + ([(0, GOOD), (0, GOOD)] + []));
    ThreeTurns(b2, b3, b4, b5);
    FirstTurns(b0, b1, b2, third);
  }

  lemma FirstTurns(b0: System, b1: System, b2: System, rest: Schedule)
    requires Advance(b0, 0, GOOD) == b1
    requires Advance(Advance(b1, 0, GOOD), 0, GOOD) == b2
    ensures Play(b0, [(0, GOOD)] + ([(0, GOOD), (0, GOOD)] + rest)) == Play(b2, rest)
  {
    Unroll(b0, 0, GOOD, [(0, GOOD), (0, GOOD)] + rest);
    TwoTurns(b1, 0, rest);
  }

  lemma CrossingSteps(s2: State, s3: State, s4: State, s6: State, head: FileHead, locks: map<Path, Tid>, r: Thread)
    requires locks == map[FILE := 0, "d" := 1, "e" := 1]
    requires r == Renamer(2, Finished(NO_HEAD, Accepted(0, None), false))
    requires ChangeStep(Twice(), FILE, Put(NEW), 2, Holding, GOOD) == (Twice(), Resolved(head))
    requires ChangeStep(Twice(), FILE, Put(NEW), 2, Resolved(head), GOOD) == (s2, OnDisk(head, OLD))
    requires CarryStep(s2, "d", "e", Holding, GOOD) == (s3, MovedNode)
    requires CarryStep(s3, "d", "e", MovedNode, GOOD) == (s4, r.phase)
    requires ChangeStep(s4, FILE, Put(NEW), 2, OnDisk(head, OLD), GOOD) == (s4, ReadBack(head, OLD, NEW))
    requires ChangeStep(s4, FILE, Put(NEW), 2, ReadBack(head, OLD, NEW), GOOD)
      == (s6, Finished(head, Accepted(1, None), true))
    ensures Play(Start(), Crossing()) == Pair(s6, locks, Writer(1, Finished(head, Accepted(1, None), true)), r)
  {
    var w := Writer(1, OnDisk(head, OLD));
    WriterTakesItsLock(Twice(), Renamer(0, Waiting));
    WriterSteps(Twice(), map[FILE := 0], Renamer(0, Waiting), Holding, Twice(), Resolved(head));
    WriterSteps(Twice(), map[FILE := 0], Renamer(0, Waiting), Resolved(head), s2, OnDisk(head, OLD));
    RenamerTakesItsLocks(s2, w);
    RenamerSteps(s2, locks, w, Holding, s3, MovedNode);
    RenamerSteps(s3, locks, w, MovedNode, s4, r.phase);
    WriterSteps(s4, locks, r, OnDisk(head, OLD), s4, ReadBack(head, OLD, NEW));
    WriterSteps(s4, locks, r, ReadBack(head, OLD, NEW), s6, Finished(head, Accepted(1, None), true));
    JoinTurns(Start(), Pair(Twice(), map[FILE := 0], Writer(1, Holding), Renamer(0, Waiting)),
      Pair(s2, map[FILE := 0], w, Renamer(0, Waiting)), Pair(s2, locks, w, Renamer(2, Holding)),
      Pair(s4, locks, w, r), Pair(s6, locks, Writer(1, Finished(head, Accepted(1, None), true)), r));
  }

  lemma CrossingPlays() returns (s6: State, locks: map<Path, Tid>, head: FileHead, r: Thread)
    ensures Play(Start(), Crossing()) == Pair(s6, locks, Writer(1, Finished(head, Accepted(1, None), true)), r)
    ensures r.phase.Finished? && FILE !in s6.disk && FILE in s6.db.meta && head.version == 2
  {
    var s2, s3, s4;
    head, s2 := WriterWrites();
    s3 := DirectoryMoves(s2);
    s4 := RowsMoveToo(s3);
    s6 := WriterRecords(s4, head);
    locks := map[FILE := 0, "d" := 1, "e" := 1];
    r := Renamer(2, Finished(NO_HEAD, Accepted(0, None), false));
    CrossingSteps(s2, s3, s4, s6, head, locks, r);
  }

  /** Everybody has answered, the tables have a file that is not on disk, and a change that named
      version 2 was answered version 1. */
  ghost predicate BrokenAtRest(b: System)
  {
    && (forall t: Tid :: t < |b.threads| ==> b.threads[t].phase.Finished?)
    && !Consistent(b.store) && FILE !in b.store.disk
    && 0 < |b.threads| && b.threads[0].task.Changing? && b.threads[0].task.base == 2
    && b.threads[0].phase.Finished? && b.threads[0].phase.reply == Accepted(1, None)
    && !ContinuesBase(b.threads[0].task, b.threads[0].phase.head, b.threads[0].phase.reply, b.threads[0].phase.recorded)
  }

  /** A rename of a directory during a write below it: nobody fails, the agreement is broken, and
      the write's base is lost. */
  lemma AncestorRenameBreaksBoth()
    ensures FreshAndAgreed(Start()) && !Away("d", "e", FILE) && !Spared("d", "e", FILE)
    ensures BrokenAtRest(Play(Start(), Crossing()))
  {
    StartIsGood();
    var s6, locks, head, r := CrossingPlays();
    AtRest(Play(Start(), Crossing()), s6, locks, head, r);
  }

  /** Nor is it what the two requests do one after the other, in whichever order and whatever
      fails around them: a change that is answered version 1 can only have come last, and would
      have left its file where it wrote it. */
  lemma NoOrderGivesThat(b: System, e1: Env, e2: Env)
    requires BrokenAtRest(b)
    ensures Mutate(Twice(), FILE, Put(NEW), 2, e1).1 != Accepted(1, None)
    ensures var (s, r) := Mutate(Move(Twice(), "d", "e", e2).0, FILE, Put(NEW), 2, e1);
      r == Accepted(1, None) ==> s != b.store
  {
    TwiceIsConsistent();
    ResolvedVersion(Twice(), FILE);
    MutateOutcome(Twice(), FILE, Put(NEW), 2, e1);
    AcceptedIsThere(Move(Twice(), "d", "e", e2).0, FILE, Put(NEW), 2, e1);
  }

  lemma AcceptedIsThere(s: State, p: Path, m: Mutation, base: nat, e: Env)
    ensures Mutate(s, p, m, base, e).1.Accepted? ==> p in Mutate(s, p, m, base, e).0.disk
  {
    if Mutate(s, p, m, base, e).1.Accepted? && !NothingToDo(s.disk, p, m, ResolveHead(s, p)) {
      assert Mutate(s, p, m, base, e) == Apply(s, p, m, ResolveHead(s, p), e);
    }
  }

  lemma StartIsGood()
    ensures FreshAndAgreed(Start()) && !Away("d", "e", FILE) && !Spared("d", "e", FILE)
  {
    TwiceIsConsistent();
    FileNames();
    PickedRows("d", FILE);
  }

  lemma AtRest(b: System, s6: State, locks: map<Path, Tid>, head: FileHead, r: Thread)
    requires b == Pair(s6, locks, Writer(1, Finished(head, Accepted(1, None), true)), r) && r.phase.Finished?
    requires FILE !in s6.disk && FILE in s6.db.meta && head.version == 2
    ensures BrokenAtRest(b)
  {
    MissingFile(s6);
  }

  lemma MissingFile(s: State)
    requires FILE in s.db.meta && FILE !in s.disk
    ensures !Consistent(s)
  {
    FileNames();
    assert !Shows(s.disk, FILE, s.db.meta[FILE]);
  }
}
