/** The request handlers as functions of the store and of everything outside it. */
module Handlers {
  import opened Wrappers
  import opened Bytes
  import opened Paths
  import opened Tables
  import opened Disk
  import opened ConflictCopies

  /** lastSweep is when old conflict files were last looked for in the whole tree. */
  datatype State = State(db: Tables, disk: Tree, lastSweep: Option<int>)

  /** What a handler does not decide itself: the time it records (whole seconds), the time the
      system stamps on what it writes, the time when it cleans up,
      the fate of each attempt at the transaction, whether the disk is changed, read back and
      changed back, the generated conflict tags, the configured limits on conflict copies, and
      which of them the system does not let go. */
  datatype Env = Env(now: int, wroteAt: int, tx: seq<Attempt>, diskOk: bool, readOk: bool, revertOk: bool,
                     tags: seq<string>, cleanupAt: int, policy: CopyPolicy, stuck: set<Path>)

  const MAX_COPY_ATTEMPTS: nat := 32

  predicate ValidEnv(e: Env)
  {
    && |e.tx| >= MAX_ATTEMPTS
    && |e.tags| >= MAX_COPY_ATTEMPTS
    && forall t :: t in e.tags ==> t != "" && '/' !in t
  }

  /** The reply to a change: WriteFile reports no size. */
  datatype Reply =
    | Failed
    | Accepted(version: nat, size: Option<nat>)
    | Conflicted(version: nat, size: Option<nat>, copy: Option<Path>)

  /** What ResolveFileHead works out about a path. */
  datatype FileHead = FileHead(present: bool, deleted: bool, version: nat, size: nat, hash: Digest)

  const NO_HEAD: FileHead := FileHead(false, false, 0, 0, NoDigest)

  ghost function RecordedHead(t: Tables, p: Path): FileHead
  {
    var n := MaxVersion(t.version, p);
    if Key(p, n) !in t.version then NO_HEAD
    else
      var rec := t.version[Key(p, n)];
      FileHead(false, rec.change.Deleted?, n, if rec.change.Deleted? then 0 else rec.size, rec.hash)
  }

  /** The newest record, overruled by the meta row, completed by the disk. */
  ghost function ResolveHead(s: State, p: Path): FileHead
  {
    var head := RecordedHead(s.db, p);
    if p in s.db.meta then
      var m := s.db.meta[p];
      FileHead(true, false, m.version, m.size, m.hash)
    else if head.deleted || p !in s.disk then head
    else head.(present := true, size := StatSize(s.disk[p]))
  }

  predicate Stale(head: FileHead, base: nat)
  {
    base != 0 && head.version != 0 && base != head.version
  }

  /** The shortcuts that answer without writing. */
  predicate NothingToDo(d: Tree, p: Path, m: Mutation, head: FileHead)
  {
    && p in d
    && head.present
    && match m
       case Put(data) => head.version != 0 && head.hash == Sha256(data)
       case Splice(_, _) => false
       case Resize(size) => head.size == size
  }

  function ReplySize(m: Mutation, size: nat): Option<nat>
  {
    if m.Put? then None else Some(size)
  }

  // ---------- conflict copies ----------

  /** The data of a version: nothing for a deletion, an error without a record or a blob. */
  function VersionData(t: Tables, p: Path, v: nat): Option<Data>
  {
    if Key(p, v) !in t.version then None
    else if t.version[Key(p, v)].change.Deleted? then Some([])
    else if Key(p, v) in t.blob then Some(t.blob[Key(p, v)])
    else None
  }

  function LoadSnapshot(t: Tables, p: Path, v: nat): Option<Data>
  {
    if v == 0 then Some([]) else VersionData(t, p, v)
  }

  /** The bytes of a conflict copy; MAX_INT64 is the longest slice of a 64-bit server. */
  function CopyData(t: Tables, p: Path, m: Mutation, base: nat): Option<Data>
    requires !Malformed(m)
  {
    match m
    case Put(data) => Some(data)
    case Splice(offset, data) =>
      var b := LoadSnapshot(t, p, base);
      if b.None? || offset + |data| > MAX_INT64 then None else Some(Spliced(b.value, offset, data))
    case Resize(size) =>
      var b := LoadSnapshot(t, p, base);
      if b.None? || size > MAX_INT64 then None else Some(Resized(b.value, size))
  }

  /** Exclusive creation under the first generated name that is free. */
  function CreateCopy(d: Tree, p: Path, data: Data, tags: seq<string>, attempts: nat, now: int): Option<(Path, Tree)>
    decreases attempts
  {
    if attempts == 0 || tags == [] then None
    else
      var q := ConflictPath(p, tags[0]);
      var parents := MakeDirs(d, Ancestors(q));
      if parents.None? then None
      else if q in d then CreateCopy(d, p, data, tags[1..], attempts - 1, now)
      else Some((q, parents.value[q := File(data, now)]))
  }

  ghost function Conflict(s: State, p: Path, m: Mutation, base: nat, head: FileHead, e: Env): (State, Reply)
    requires !Malformed(m)
  {
    var size := ReplySize(m, head.size);
    var data := CopyData(s.db, p, m, base);
    var made := if data.None? || !e.diskOk then None
                else CreateCopy(s.disk, p, data.value, e.tags, MAX_COPY_ATTEMPTS, e.wroteAt);
    if made.None? then (s, if m.Put? then Failed else Conflicted(head.version, size, None))
    else
      var (q, d) := made.value;
      var (d', swept) := if m.Put? then Cleaned(d, s.lastSweep, p, e.policy, e.cleanupAt, e.stuck)
          else (d, s.lastSweep);
      (s.(disk := d', lastSweep := swept), Conflicted(head.version, size, Some(q)))
  }

  // ---------- the changes themselves ----------

  function SaveOp(p: Path, m: Mutation, present: bool, full: Data, now: int): TxOp
  {
    Save(p, |full|, now, Sha256(full), if present then Modified else Created,
         if m.Put? && full == [] then None else Some(full))
  }

  /** Disk first; unless the bytes are at hand they are read back; then the transaction that
      records them. */
  ghost function Apply(s: State, p: Path, m: Mutation, head: FileHead, e: Env): (State, Reply)
    requires !Malformed(m)
  {
    if !e.diskOk then (s, Failed)
    else
      var (d, ok) := MutateFile(s.disk, p, m, e.wroteAt);
      if !ok || !(m.Put? || e.readOk) then (s.(disk := d), Failed)
      else
        var full := BytesAt(d, p);
        var r := Transact(s.db, SaveOp(p, m, head.present, full, e.now), e.tx);
        if r.None? then (s.(disk := d), Failed)
        else (s.(db := r.value.0, disk := d), Accepted(r.value.1, ReplySize(m, |full|)))
  }

  /** WriteFile, WriteFileRange and SetFileSize. */
  ghost function Mutate(s: State, p: Path, m: Mutation, base: nat, e: Env): (State, Reply)
  {
    if Malformed(m) then (s, Failed)
    else
      var head := ResolveHead(s, p);
      if Stale(head, base) then Conflict(s, p, m, base, head, e)
      else if NothingToDo(s.disk, p, m, head) then (s, Accepted(head.version, ReplySize(m, head.size)))
      else Apply(s, p, m, head, e)
  }

  ghost function Delete(s: State, p: Path, e: Env): (State, Reply)
  {
    var size := if p in s.db.meta then s.db.meta[p].size else 0;
    var d := RemoveNode(s.disk, p);
    if !e.diskOk || d.None? then (s, Failed)
    else
      var r := Transact(s.db, Remove(p, size, e.now), e.tx);
      if r.None? then (s.(disk := d.value), Failed)
      else (s.(db := r.value.0, disk := d.value), Accepted(r.value.1, None))
  }

  /** The meta row of a new directory is one plain statement, without the retry loop. */
  ghost function MakeDir(s: State, p: Path, e: Env): (State, Reply)
  {
    var d := MakeDirs(s.disk, Ancestors(p) + {p});
    if !e.diskOk || d.None? then (s, Failed)
    else if e.tx == [] || !e.tx[0].Clean? then (s.(disk := d.value), Failed)
    else (s.(db := s.db.(meta := s.db.meta[p := DIR_META]), disk := d.value), Accepted(0, None))
  }

  /** Disk first, then the tables; a refused transaction moves the tree back. */
  ghost function Move(s: State, from: Path, to: Path, e: Env): (State, Reply)
  {
    if from == to then (s, Accepted(0, None))
    else if !e.diskOk then (s, Failed)
    else
      var (d, ok) := RenameNode(s.disk, from, to);
      if !ok then (s.(disk := d), Failed)
      else
        var r := Transact(s.db, Rename(from, to), e.tx);
        if r.Some? then (s.(db := r.value.0, disk := d), Accepted(0, None))
        else (s.(disk := if e.revertOk then RenameNode(d, to, from).0 else d), Failed)
  }

  datatype Request =
    | Change(path: Path, mutation: Mutation, base: nat)
    | Erase(path: Path)
    | NewDir(path: Path)
    | Carry(from: Path, to: Path)
    | Tidy(gone: set<Path>)

  /** Tidy is the background janitor deleting some conflict files between requests. */
  ghost function Handle(s: State, r: Request, e: Env): (State, Reply)
  {
    match r
    case Change(p, m, base) => Mutate(s, p, m, base, e)
    case Erase(p) => Delete(s, p, e)
    case NewDir(p) => MakeDir(s, p, e)
    case Carry(from, to) => Move(s, from, to, e)
    case Tidy(gone) => (s.(disk := Pruned(s.disk, gone)), Accepted(0, None))
  }
}
