/** What runs of requests keep: agreement of disk and tables, and the histories of all files. */
module Runs {
  import opened Wrappers
  import opened Bytes
  import opened Paths
  import opened Like
  import opened Tables
  import opened Disk
  import opened ConflictCopies
  import opened Handlers
  import opened Store
  import opened Agreement

  type Script = seq<(Request, Env)>

  ghost function Run(s: State, script: Script): State
    decreases |script|
  {
    if script == [] then s else Run(Handle(s, script[0].0, script[0].1).0, script[1..])
  }

  predicate Proper(script: Script)
  {
    forall x :: x in script ==> ValidEnv(x.1)
  }

  ghost predicate NamedAll(script: Script)
  {
    forall x :: x in script ==> Named(x.0)
  }

  ghost predicate AllHarmless(s: State, script: Script)
    decreases |script|
  {
    script == [] ||
    (Harmless(s, script[0].0, script[0].1) && AllHarmless(Handle(s, script[0].0, script[0].1).0, script[1..]))
  }

  /** Disk and tables agree after every request of the run. */
  ghost predicate StaysConsistent(s: State, script: Script)
    decreases |script|
  {
    Consistent(s) && (script == [] || StaysConsistent(Handle(s, script[0].0, script[0].1).0, script[1..]))
  }

  /** A run keeps disk and tables in agreement throughout if and only if each of its requests
      is harmless when it comes. */
  lemma {:induction false} RunConsistentIff(s: State, script: Script)
    requires Consistent(s) && Proper(script) && NamedAll(script)
    ensures StaysConsistent(s, script) <==> AllHarmless(s, script)
    decreases |script|
  {
    if script != [] {
      var (r, e) := script[0];
      assert script[0] in script;
      StepConsistentIff(s, r, e);
      if Harmless(s, r, e) { RunConsistentIff(Handle(s, r, e).0, script[1..]); }
    }
  }

  /** So it ends in agreement. */
  lemma {:induction false} RunKeepsConsistent(s: State, script: Script)
    requires Consistent(s) && Proper(script) && NamedAll(script) && AllHarmless(s, script)
    ensures Consistent(Run(s, script))
    decreases |script|
  {
    if script != [] {
      var (r, e) := script[0];
      assert script[0] in script;
      StepConsistentIff(s, r, e);
      RunKeepsConsistent(Handle(s, r, e).0, script[1..]);
    }
  }

  /** In particular from an empty store over any disk. */
  lemma FreshStoreRuns(d: Tree, script: Script, p: Path)
    requires WellFormed(d) && Proper(script) && NamedAll(script) && AllHarmless(State(EMPTY, d, None), script)
    ensures var s := Run(State(EMPTY, d, None), script);
      Consistent(s) &&
      (Live(s.db, p) && !Reserved(p) ==>
        p in s.disk && s.disk[p].File? && s.disk[p].content == ContentAt(s.db, p, s.db.meta[p].version)
        && s.db.meta[p].version == |History(s.db, p)|)
  {
    RunKeepsConsistent(State(EMPTY, d, None), script);
    var s := Run(State(EMPTY, d, None), script);
    if Live(s.db, p) { LiveFile(s, p); }
  }

  // ---------- histories are permanent ----------

  /** Where a file's history is after a request: only an accepted rename moves it, to where the
      UPDATE sends its path. */
  ghost function Landing(s: State, r: Request, e: Env, p: Path): Path
  {
    if r.Carry? && r.from != r.to && Handle(s, r, e).1.Accepted? then RowImage(r.from, r.to, p) else p
  }

  /** Old records and blobs are still there, unchanged and in the same order. */
  ghost predicate Kept(t: Tables, p: Path, t': Tables, p': Path)
    requires Dense(t) && Dense(t')
  {
    && History(t, p) <= History(t', p')
    && forall v: nat :: 1 <= v <= |History(t, p)| ==>
      (Key(p, v) in t.blob <==> Key(p', v) in t'.blob) &&
      (Key(p, v) in t.blob ==> t.blob[Key(p, v)] == t'.blob[Key(p', v)])
  }

  lemma ExtendedKeeps(t: Tables, p: Path, rec: Record, data: Option<Data>, t': Tables, q: Path)
    requires Dense(t) && Dense(t') && Extended(t, p, rec, data, t')
    ensures Kept(t, q, t', q)
  {
    if q != p { assert SameFile(t, q, t', q); }
  }

  lemma KeptTransitive(t: Tables, p: Path, t1: Tables, p1: Path, t2: Tables, p2: Path)
    requires Dense(t) && Dense(t1) && Dense(t2)
    requires Kept(t, p, t1, p1) && Kept(t1, p1, t2, p2)
    ensures Kept(t, p, t2, p2)
  { }

  lemma AcceptedMove(s: State, from: Path, to: Path, e: Env)
    requires Move(s, from, to, e).1.Accepted? && from != to
    ensures RenameTx(s.db, from, to) == Some(Move(s, from, to, e).0.db)
  {
    RenameTransaction(s.db, from, to, e.tx);
  }

  lemma MutateKeepsHistory(s: State, q: Path, m: Mutation, base: nat, e: Env, p: Path)
    requires Recorded(s.db) && WellFormed(s.disk) && q != ""
    ensures Recorded(Mutate(s, q, m, base, e).0.db)
    ensures Kept(s.db, p, Mutate(s, q, m, base, e).0.db, p)
  {
    MutateOutcome(s, q, m, base, e);
    var s' := Mutate(s, q, m, base, e).0;
    if s'.db != s.db {
      var full := Applied(m, BytesAt(s.disk, q));
      ExtendedKeeps(s.db, q,
        Record(e.now, Sha256(full), |full|, if ResolveHead(s, q).present then Modified else Created),
        if m.Put? && full == [] then None else Some(full), s'.db, p);
    }
  }

  lemma DeleteKeepsHistory(s: State, q: Path, e: Env, p: Path)
    requires Recorded(s.db)
    ensures Recorded(Delete(s, q, e).0.db)
    ensures Kept(s.db, p, Delete(s, q, e).0.db, p)
  {
    DeleteOutcome(s, q, e);
    var (s', reply) := Delete(s, q, e);
    if reply.Accepted? {
      var size :| Extended(s.db, q, Record(e.now, NoDigest, size, Deleted), None, s'.db);
      ExtendedKeeps(s.db, q, Record(e.now, NoDigest, size, Deleted), None, s'.db, p);
    }
  }

  lemma MoveKeepsHistory(s: State, from: Path, to: Path, e: Env, p: Path)
    requires Recorded(s.db) && p in s.db.head
    ensures var (s', r) := Move(s, from, to, e);
      var q := if r.Accepted? && from != to then RowImage(from, to, p) else p;
      Recorded(s'.db) && q in s'.db.head && Kept(s.db, p, s'.db, q)
  {
    if Move(s, from, to, e).1.Accepted? && from != to {
      AcceptedMove(s, from, to, e);
      RenameKeepsVersions(s.db, from, to, p);
    }
  }

  lemma MakeDirKeepsHistory(s: State, q: Path, e: Env, p: Path)
    requires Recorded(s.db)
    ensures var t' := MakeDir(s, q, e).0.db;
      Recorded(t') && t'.head == s.db.head && Kept(s.db, p, t', p)
  {
    DirRowKeepsRecorded(s.db, q);
    assert SameFile(s.db, p, MakeDir(s, q, e).0.db, p);
  }

  lemma RenameKeepsVersions(t: Tables, from: Path, to: Path, p: Path)
    requires Recorded(t) && p in t.head && RenameTx(t, from, to).Some?
    ensures var t' := RenameTx(t, from, to).value;
      Recorded(t') && RowImage(from, to, p) in t'.head && Kept(t, p, t', RowImage(from, to, p))
  {
    var image := PathImage(from, to);
    MoveStaysRecorded(t, image);
    MoveKeepsFile(t, image, p);
    assert image(p) in RenameTx(t, from, to).value.head;
  }

  /** A request never alters or drops a recorded version, whatever fails around it. */
  lemma StepKeepsHistory(s: State, r: Request, e: Env, p: Path)
    requires Recorded(s.db) && WellFormed(s.disk) && Named(r)
    requires p in s.db.head
    ensures Recorded(Handle(s, r, e).0.db)
    ensures Landing(s, r, e, p) in Handle(s, r, e).0.db.head
    ensures Kept(s.db, p, Handle(s, r, e).0.db, Landing(s, r, e, p))
  {
    match r
    case Change(q, m, base) => MutateKeepsHistory(s, q, m, base, e, p);
    case Erase(q) => DeleteKeepsHistory(s, q, e, p);
    case NewDir(q) => MakeDirKeepsHistory(s, q, e, p);
    case Carry(from, to) => MoveKeepsHistory(s, from, to, e, p);
    case Tidy(_) =>
  }

  lemma MutateKeepsDisk(s: State, p: Path, m: Mutation, base: nat, e: Env)
    requires WellFormed(s.disk) && ValidEnv(e) && p != ""
    ensures WellFormed(Mutate(s, p, m, base, e).0.disk)
  {
    if !Malformed(m) {
      if Stale(ResolveHead(s, p), base) {
        ConflictKeepsDisk(s, p, m, base, ResolveHead(s, p), e);
      } else {
        MutatedFile(s.disk, p, m, e.wroteAt);
      }
    }
  }

  lemma MoveKeepsDisk(s: State, from: Path, to: Path, e: Env)
    requires WellFormed(s.disk) && from != "" && to != ""
    ensures WellFormed(Move(s, from, to, e).0.disk)
  {
    if from != to {
      if RenameNode(s.disk, from, to).1 {
        RenamedNode(s.disk, from, to);
        RevertedNode(s.disk, from, to);
      } else if MakeDirs(s.disk, Ancestors(to)).Some? {
        MadeDirs(s.disk, to, Ancestors(to));
      }
    }
  }

  lemma StepKeepsDisk(s: State, r: Request, e: Env)
    requires WellFormed(s.disk) && Named(r) && ValidEnv(e)
    ensures WellFormed(Handle(s, r, e).0.disk)
  {
    match r
    case Change(p, m, base) => MutateKeepsDisk(s, p, m, base, e);
    case Erase(p) =>
      if RemoveNode(s.disk, p).Some? { RemovedNode(s.disk, p); }
    case NewDir(p) =>
      if MakeDirs(s.disk, Ancestors(p) + {p}).Some? { MadeDirs(s.disk, p, Ancestors(p) + {p}); }
    case Carry(from, to) => MoveKeepsDisk(s, from, to, e);
    case Tidy(gone) => PrunedTree(s.disk, gone);
  }

  ghost function Destination(s: State, script: Script, p: Path): Path
    decreases |script|
  {
    if script == [] then p
    else Destination(Handle(s, script[0].0, script[0].1).0, script[1..],
                     Landing(s, script[0].0, script[0].1, p))
  }

  /** Along every run, failures included, the versions of a file stay exactly 1..n for a
      growing n, and none of them is ever altered, dropped or reordered. */
  lemma {:induction false} RunKeepsHistory(s: State, script: Script, p: Path)
    requires Recorded(s.db) && WellFormed(s.disk) && Proper(script) && NamedAll(script)
    requires p in s.db.head
    ensures Recorded(Run(s, script).db)
    ensures Kept(s.db, p, Run(s, script).db, Destination(s, script, p))
    decreases |script|
  {
    if script != [] {
      var (r, e) := script[0];
      assert script[0] in script;
      var s1 := Handle(s, r, e).0;
      StepKeepsHistory(s, r, e, p);
      StepKeepsDisk(s, r, e);
      var p1 := Landing(s, r, e, p);
      RunKeepsHistory(s1, script[1..], p1);
      KeptTransitive(s.db, p, s1.db, p1, Run(s, script).db, Destination(s, script, p));
    }
  }

  lemma StepNeverMerges(s: State, r: Request, e: Env, p: Path, q: Path)
    requires p in s.db.head && q in s.db.head && p != q
    ensures Landing(s, r, e, p) != Landing(s, r, e, q)
  {
    if r.Carry? && r.from != r.to && Handle(s, r, e).1.Accepted? {
      AcceptedMove(s, r.from, r.to, e);
      var image := PathImage(r.from, r.to);
      assert Injective(s.db.head.Keys, image);
      assert image(p) == Landing(s, r, e, p) && image(q) == Landing(s, r, e, q);
    }
  }

  /** No run ever merges the histories of two files. */
  lemma {:induction false} RunNeverMerges(s: State, script: Script, p: Path, q: Path)
    requires Recorded(s.db) && WellFormed(s.disk) && Proper(script) && NamedAll(script)
    requires p in s.db.head && q in s.db.head && p != q
    ensures Destination(s, script, p) != Destination(s, script, q)
    decreases |script|
  {
    if script != [] {
      var (r, e) := script[0];
      assert script[0] in script;
      StepKeepsHistory(s, r, e, p);
      StepKeepsHistory(s, r, e, q);
      StepKeepsDisk(s, r, e);
      StepNeverMerges(s, r, e, p, q);
      RunNeverMerges(Handle(s, r, e).0, script[1..], Landing(s, r, e, p), Landing(s, r, e, q));
    }
  }

  // ---------- clocks ----------

  /** The requests write one after the other in time. */
  predicate Ticking(clock: int, script: Script)
    decreases |script|
  {
    script == [] || (clock < script[0].1.wroteAt && Ticking(script[0].1.wroteAt, script[1..]))
  }

  function LastTick(clock: int, script: Script): int
    decreases |script|
  {
    if script == [] then clock else LastTick(script[0].1.wroteAt, script[1..])
  }

  /** No file was written after the clock. */
  predicate Past(d: Tree, clock: int)
  {
    forall q :: q in d && d[q].File? ==> d[q].mtime <= clock
  }

  lemma RenameKeepsPast(d: Tree, from: Path, to: Path, clock: int)
    requires Past(d, clock)
    ensures Past(RenameNode(d, from, to).0, clock)
  {
    var d0 := MakeDirs(d, Ancestors(to));
    assert d0.Some? ==> Past(d0.value, clock);
  }

  lemma ChangeKeepsPast(s: State, p: Path, m: Mutation, base: nat, e: Env, clock: int)
    requires WellFormed(s.disk) && ValidEnv(e) && p != "" && Past(s.disk, clock) && clock < e.wroteAt
    ensures Past(Mutate(s, p, m, base, e).0.disk, e.wroteAt)
  {
    if !Malformed(m) {
      var head := ResolveHead(s, p);
      if Stale(head, base) {
        ConflictKeepsPast(s, p, m, base, head, e, clock);
      } else {
        assert Past(MutateFile(s.disk, p, m, e.wroteAt).0, e.wroteAt);
      }
    }
  }

  lemma ConflictKeepsPast(s: State, p: Path, m: Mutation, base: nat, head: FileHead, e: Env, clock: int)
    requires WellFormed(s.disk) && ValidEnv(e) && p != "" && !Malformed(m) && Past(s.disk, clock) && clock < e.wroteAt
    ensures Past(Conflict(s, p, m, base, head, e).0.disk, e.wroteAt)
  {
    var data := CopyData(s.db, p, m, base);
    if data.Some? && e.diskOk && CreateCopy(s.disk, p, data.value, e.tags, MAX_COPY_ATTEMPTS, e.wroteAt).Some? {
      CreatedCopy(s.disk, p, data.value, e.tags, MAX_COPY_ATTEMPTS, e.wroteAt);
      var (q, d) := CreateCopy(s.disk, p, data.value, e.tags, MAX_COPY_ATTEMPTS, e.wroteAt).value;
      CleanedTree(d, s.lastSweep, p, e.policy, e.cleanupAt, e.stuck);
      forall x | x in d && d[x].File? ensures d[x].mtime <= e.wroteAt {
        if x in s.disk { assert d[x] == s.disk[x]; }
      }
    }
  }

  lemma StepKeepsPast(s: State, r: Request, e: Env, clock: int)
    requires WellFormed(s.disk) && Named(r) && ValidEnv(e) && Past(s.disk, clock) && clock < e.wroteAt
    ensures Past(Handle(s, r, e).0.disk, e.wroteAt)
  {
    match r
    case Change(p, m, base) => ChangeKeepsPast(s, p, m, base, e, clock);
    case Erase(p) =>
    case NewDir(p) =>
    case Carry(from, to) =>
      RenameKeepsPast(s.disk, from, to, clock);
      RenameKeepsPast(RenameNode(s.disk, from, to).0, to, from, clock);
    case Tidy(gone) =>
  }

  lemma {:induction false} RunKeepsPast(s: State, script: Script, clock: int)
    requires WellFormed(s.disk) && Proper(script) && NamedAll(script)
    requires Past(s.disk, clock) && Ticking(clock, script)
    ensures WellFormed(Run(s, script).disk) && Past(Run(s, script).disk, LastTick(clock, script))
    decreases |script|
  {
    if script != [] {
      var (r, e) := script[0];
      assert script[0] in script;
      StepKeepsPast(s, r, e, clock);
      StepKeepsDisk(s, r, e);
      RunKeepsPast(Handle(s, r, e).0, script[1..], e.wroteAt);
    }
  }

  /** Along every run with a clock that moves on, the conflict copy that a WriteFile reports is
      on disk with the caller's bytes when the server replies, unless the cleanup after it
      starts a whole lifetime later. */
  lemma ReportedCopiesAreThere(s: State, script: Script, p: Path, data: Data, base: nat, e: Env, clock: int)
    requires Consistent(s) && Proper(script) && NamedAll(script) && AllHarmless(s, script)
    requires Past(s.disk, clock) && Ticking(clock, script) && LastTick(clock, script) < e.wroteAt
    requires ValidEnv(e) && p != "" && (e.policy.ttl <= 0 || e.cleanupAt - e.wroteAt <= e.policy.ttl)
    requires Mutate(Run(s, script), p, Put(data), base, e).1.Conflicted?
    ensures var s1 := Run(s, script);
      var (s2, r) := Mutate(s1, p, Put(data), base, e);
      && r.copy.Some? && r.copy.value !in s1.disk
      && r.copy.value in s2.disk && s2.disk[r.copy.value] == File(data, e.wroteAt)
  {
    RunKeepsConsistent(s, script);
    RunKeepsPast(s, script, clock);
    ReportedCopyIsThere(Run(s, script), p, data, base, e);
  }
}
