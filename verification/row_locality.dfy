/** What a handler does to a path depends on the rows and the node of that path, and leaves the
    rows of all other paths alone. */
module RowLocality {
  import opened Wrappers
  import opened Bytes
  import opened Paths
  import opened Tables
  import opened Disk
  import opened Handlers
  import opened Interleaving
  import opened HandlerSteps

  // ---------- the rows of one path ----------

  /** Both tables have the same rows of a path. */
  ghost predicate SameAt(t: Tables, u: Tables, p: Path)
  {
    && (p in t.meta <==> p in u.meta)
    && (p in t.meta ==> t.meta[p] == u.meta[p])
    && (p in t.head <==> p in u.head)
    && (p in t.head ==> t.head[p] == u.head[p])
    && forall v: nat :: SameKey(t, u, Key(p, v))
  }

  predicate SameKey(t: Tables, u: Tables, k: Key)
  {
    && (k in t.version <==> k in u.version)
    && (k in t.version ==> t.version[k] == u.version[k])
    && (k in t.blob <==> k in u.blob)
    && (k in t.blob ==> t.blob[k] == u.blob[k])
  }

  lemma SameAtTransitive(t: Tables, u: Tables, w: Tables, p: Path)
    requires SameAt(t, u, p) && SameAt(u, w, p)
    ensures SameAt(t, w, p)
  {
    forall v: nat ensures SameKey(t, w, Key(p, v)) {
      assert SameKey(t, u, Key(p, v)) && SameKey(u, w, Key(p, v));
    }
  }

  lemma SameAtSymmetric(t: Tables, u: Tables, p: Path)
    requires SameAt(t, u, p)
    ensures SameAt(u, t, p)
  {
    forall v: nat ensures SameKey(u, t, Key(p, v)) {
      assert SameKey(t, u, Key(p, v));
    }
  }

  /** Tables that agree at every path are equal. */
  lemma SameEverywhere(t: Tables, u: Tables)
    requires forall p :: SameAt(t, u, p)
    ensures t == u
  {
    forall k: Key ensures SameKey(t, u, k) {
      assert SameAt(t, u, k.path) && k == Key(k.path, k.version);
    }
    forall k: Key ensures (k in t.version <==> k in u.version) && (k in t.version ==> t.version[k] == u.version[k])
    {
      assert SameKey(t, u, k);
    }
    SameMaps(t.version, u.version);
    forall k: Key ensures (k in t.blob <==> k in u.blob) && (k in t.blob ==> t.blob[k] == u.blob[k]) {
      assert SameKey(t, u, k);
    }
    SameMaps(t.blob, u.blob);
    forall p ensures (p in t.meta <==> p in u.meta) && (p in t.meta ==> t.meta[p] == u.meta[p]) {
      assert SameAt(t, u, p);
    }
    SameMaps(t.meta, u.meta);
    forall p ensures (p in t.head <==> p in u.head) && (p in t.head ==> t.head[p] == u.head[p]) {
      assert SameAt(t, u, p);
    }
    SameMaps(t.head, u.head);
  }

  lemma SameMaps<K(!new), V>(m: map<K, V>, n: map<K, V>)
    requires forall k :: (k in m <==> k in n) && (k in m ==> m[k] == n[k])
    ensures m == n
  { }

  lemma SameMax(t: Tables, u: Tables, p: Path)
    requires SameAt(t, u, p)
    ensures MaxVersion(t.version, p) == MaxVersion(u.version, p)
  {
    var n, m := MaxVersion(t.version, p), MaxVersion(u.version, p);
    assert SameKey(t, u, Key(p, n)) && SameKey(t, u, Key(p, m));
  }

  lemma SameHead(s: State, q: State, p: Path)
    requires SameAt(s.db, q.db, p)
    requires (p in s.disk <==> p in q.disk) && (p in s.disk ==> s.disk[p] == q.disk[p])
    ensures ResolveHead(s, p) == ResolveHead(q, p)
  {
    SameMax(s.db, q.db, p);
    assert SameKey(s.db, q.db, Key(p, MaxVersion(s.db.version, p)));
  }

  lemma SameCopyData(t: Tables, u: Tables, p: Path, m: Mutation, base: nat)
    requires SameAt(t, u, p) && !Malformed(m)
    ensures CopyData(t, p, m, base) == CopyData(u, p, m, base)
  {
    assert SameKey(t, u, Key(p, base));
  }

  // ---------- transactions ----------

  /** A transaction gives the same answer and makes the same rows of its path. */
  ghost predicate SameResult(r: Option<(Tables, nat)>, r': Option<(Tables, nat)>, p: Path)
  {
    && (r.Some? <==> r'.Some?)
    && (r.Some? ==> r.value.1 == r'.value.1 && SameAt(r.value.0, r'.value.0, p))
  }

  /** The tables after one version was appended. */
  function Appended(t: Tables, p: Path, v: nat, live: Option<Meta>, rec: Record, data: Option<Data>): Tables
  {
    Tables(
      if live.Some? then t.meta[p := live.value.(version := v)] else t.meta - {p},
      t.head[p := v],
      t.version[Key(p, v) := rec],
      if data.Some? then t.blob[Key(p, v) := data.value] else t.blob)
  }

  lemma SameAppended(t: Tables, u: Tables, p: Path, v: nat, live: Option<Meta>, rec: Record, data: Option<Data>)
    requires SameAt(t, u, p)
    ensures SameAt(Appended(t, p, v, live, rec, data), Appended(u, p, v, live, rec, data), p)
  {
    forall n: nat ensures SameKey(Appended(t, p, v, live, rec, data), Appended(u, p, v, live, rec, data), Key(p, n)) {
      assert SameKey(t, u, Key(p, n));
    }
  }

  lemma AppendIs(t: Tables, p: Path, v: nat, live: Option<Meta>, rec: Record, data: Option<Data>)
    requires v == CurrentVersion(t, p) + 1
    ensures AppendTx(t, p, live, rec, data) ==
      if Key(p, v) in t.version || (data.Some? && Key(p, v) in t.blob) then None
      else Some((Appended(t, p, v, live, rec, data), v))
  { }

  lemma SameCurrent(t: Tables, u: Tables, p: Path)
    requires SameAt(t, u, p)
    ensures CurrentVersion(t, p) == CurrentVersion(u, p)
  {
    SameMax(t, u, p);
  }

  lemma SameAppend(t: Tables, u: Tables, p: Path, live: Option<Meta>, rec: Record, data: Option<Data>)
    requires SameAt(t, u, p)
    ensures SameResult(AppendTx(t, p, live, rec, data), AppendTx(u, p, live, rec, data), p)
  {
    SameCurrent(t, u, p);
    var v := CurrentVersion(t, p) + 1;
    AppendIs(t, p, v, live, rec, data);
    AppendIs(u, p, v, live, rec, data);
    SameAppended(t, u, p, v, live, rec, data);
    assert SameKey(t, u, Key(p, v));
  }

  lemma AppendElsewhere(t: Tables, p: Path, live: Option<Meta>, rec: Record, data: Option<Data>, q: Path)
    requires q != p && AppendTx(t, p, live, rec, data).Some?
    ensures SameAt(t, AppendTx(t, p, live, rec, data).value.0, q)
  { }

  lemma SameTransact(t: Tables, u: Tables, op: TxOp, tx: seq<Attempt>)
    requires !op.Rename? && SameAt(t, u, op.path)
    ensures SameResult(Transact(t, op, tx), Transact(u, op, tx), op.path)
  {
    match op
    case Save(p, size, mtime, hash, change, data) =>
      SameAppend(t, u, p, Some(Meta(false, size, mtime, hash, 0)), Record(mtime, hash, size, change), data);
    case Remove(p, size, mtime) => SameAppend(t, u, p, None, Record(mtime, NoDigest, size, Deleted), None);
    case Rename(_, _) =>
  }

  lemma TransactElsewhere(t: Tables, op: TxOp, tx: seq<Attempt>, q: Path)
    requires !op.Rename? && q != op.path && Transact(t, op, tx).Some?
    ensures SameAt(t, Transact(t, op, tx).value.0, q)
  {
    match op
    case Save(p, size, mtime, hash, change, data) =>
      AppendElsewhere(t, p, Some(Meta(false, size, mtime, hash, 0)), Record(mtime, hash, size, change), data, q);
    case Remove(p, size, mtime) => AppendElsewhere(t, p, None, Record(mtime, NoDigest, size, Deleted), None, q);
    case Rename(_, _) =>
  }

  // ---------- steps over the same disk ----------

  /** The same disk, the same time of the last sweep and the same rows of a path. */
  ghost predicate Alike(s: State, q: State, p: Path)
  {
    s.disk == q.disk && s.lastSweep == q.lastSweep && SameAt(s.db, q.db, p)
  }

  lemma SameConflict(s: State, q: State, p: Path, m: Mutation, base: nat, head: FileHead, e: Env)
    requires Alike(s, q, p) && !Malformed(m)
    ensures var (s', r), (q', r') := Conflict(s, p, m, base, head, e), Conflict(q, p, m, base, head, e);
      r == r' && Alike(s', q', p)
  {
    SameCopyData(s.db, q.db, p, m, base);
  }

  lemma SameDecision(s: State, q: State, p: Path, m: Mutation, base: nat, e: Env)
    requires Alike(s, q, p)
    ensures var (s', ph), (q', ph') := Decide(s, p, m, base, e), Decide(q, p, m, base, e);
      ph == ph' && Alike(s', q', p)
  {
    if !Malformed(m) {
      SameHead(s, q, p);
      SameConflict(s, q, p, m, base, ResolveHead(s, p), e);
    }
  }

  lemma SameRecording(s: State, q: State, p: Path, m: Mutation, head: FileHead, full: Data, e: Env)
    requires SameAt(s.db, q.db, p)
    ensures var (s', ph), (q', ph') := RecordChange(s, p, m, head, full, e), RecordChange(q, p, m, head, full, e);
      ph == ph' && SameAt(s'.db, q'.db, p) && s'.disk == s.disk && q'.disk == q.disk
      && s'.lastSweep == s.lastSweep && q'.lastSweep == q.lastSweep
  {
    SameTransact(s.db, q.db, SaveOp(p, m, head.present, full, e.now), e.tx);
  }

  lemma SameRemoval(s: State, q: State, p: Path, size: nat, e: Env)
    requires SameAt(s.db, q.db, p)
    ensures var (s', ph), (q', ph') := EraseStep(s, p, OffDisk(size), e), EraseStep(q, p, OffDisk(size), e);
      ph == ph' && SameAt(s'.db, q'.db, p) && s'.disk == s.disk && q'.disk == q.disk
      && s'.lastSweep == s.lastSweep && q'.lastSweep == q.lastSweep
  {
    SameTransact(s.db, q.db, Remove(p, size, e.now), e.tx);
  }

  lemma SameDirRow(s: State, q: State, p: Path, e: Env)
    requires SameAt(s.db, q.db, p)
    ensures var (s', ph), (q', ph') := MakeDirStep(s, p, DirMade, e), MakeDirStep(q, p, DirMade, e);
      ph == ph' && SameAt(s'.db, q'.db, p) && s'.disk == s.disk && q'.disk == q.disk
      && s'.lastSweep == s.lastSweep && q'.lastSweep == q.lastSweep
  {
    var s', q' := MakeDirStep(s, p, DirMade, e).0, MakeDirStep(q, p, DirMade, e).0;
    forall v: nat ensures SameKey(s'.db, q'.db, Key(p, v)) {
      assert SameKey(s.db, q.db, Key(p, v));
    }
  }

  /** Where disk, sweep and the rows of its path are the same, a step does the same. */
  lemma SameStep(s: State, q: State, task: Task, ph: Phase, e: Env)
    requires !task.Carrying? && Alike(s, q, task.path)
    ensures var (s', ph1), (q', ph2) := WorkStep(s, task, ph, e), WorkStep(q, task, ph, e);
      ph1 == ph2 && Alike(s', q', task.path)
  {
    match task
    case Changing(p, m, base) =>
      if ph.Holding? {
        SameDecision(s, q, p, m, base, e);
      } else if ph.ReadBack? {
        SameRecording(s, q, p, m, ph.head, ph.full, e);
      }
    case Erasing(p) => if ph.OffDisk? { SameRemoval(s, q, p, ph.size, e); }
    case MakingDir(p) => if ph.DirMade? { SameDirRow(s, q, p, e); }
  }

  lemma {:induction false} SameSteps(s: State, q: State, task: Task, ph: Phase, e: Env, n: nat)
    requires !task.Carrying? && Alike(s, q, task.path)
    ensures var (s', ph1), (q', ph2) := Steps(s, task, ph, e, n), Steps(q, task, ph, e, n);
      ph1 == ph2 && Alike(s', q', task.path)
    decreases n
  {
    if n > 0 {
      SameStep(s, q, task, ph, e);
      SameSteps(WorkStep(s, task, ph, e).0, WorkStep(q, task, ph, e).0, task, WorkStep(s, task, ph, e).1, e, n - 1);
    }
  }

  // ---------- steps after the disk was changed ----------

  /** The disk has been changed, the tables are still to follow. */
  predicate Underway(ph: Phase)
  {
    ph.OnDisk? || ph.ReadBack? || ph.OffDisk? || ph.DirMade?
  }

  /** What is left of such a request, done at once. */
  ghost function Rest(s: State, task: Task, ph: Phase, e: Env): (State, Phase)
  {
    Steps(s, task, ph, e, 2)
  }

  /** From there on only the bytes at the path and its rows matter. */
  lemma LateStep(s: State, q: State, task: Task, ph: Phase, e: Env)
    requires !task.Carrying? && Suits(task, ph) && Underway(ph) && SameAt(s.db, q.db, task.path)
    requires ph.OnDisk? ==> BytesAt(s.disk, task.path) == BytesAt(q.disk, task.path)
    ensures var (s', ph1), (q', ph2) := WorkStep(s, task, ph, e), WorkStep(q, task, ph, e);
      && ph1 == ph2 && SameAt(s'.db, q'.db, task.path)
      && s'.disk == s.disk && s'.lastSweep == s.lastSweep && (ph1.ReadBack? || ph1.Finished?)
  {
    match task
    case Changing(p, m, base) =>
      if ph.ReadBack? { SameRecording(s, q, p, m, ph.head, ph.full, e); }
    case Erasing(p) => SameRemoval(s, q, p, ph.size, e);
    case MakingDir(p) => SameDirRow(s, q, p, e);
  }

  lemma LateRest(s: State, q: State, task: Task, ph: Phase, e: Env)
    requires !task.Carrying? && Suits(task, ph) && Underway(ph) && SameAt(s.db, q.db, task.path)
    requires ph.OnDisk? ==> BytesAt(s.disk, task.path) == BytesAt(q.disk, task.path)
    ensures var (s', ph1), (q', ph2) := Rest(s, task, ph, e), Rest(q, task, ph, e);
      && ph1 == ph2 && ph1.Finished? && SameAt(s'.db, q'.db, task.path)
      && s'.disk == s.disk && s'.lastSweep == s.lastSweep
  {
    LateStep(s, q, task, ph, e);
    var (s1, ph1) := WorkStep(s, task, ph, e);
    var (q1, ph2) := WorkStep(q, task, ph, e);
    OneStep(s, task, ph, e, 2);
    OneStep(q, task, ph, e, 2);
    OneStep(s1, task, ph1, e, 1);
    OneStep(q1, task, ph1, e, 1);
    if ph1.Finished? {
      FinishedStays(s1, task, ph1, e, 1);
      FinishedStays(q1, task, ph1, e, 1);
    } else {
      LateStep(s1, q1, task, ph1, e);
    }
  }
}
