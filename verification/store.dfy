/** What every run of the file store keeps. */
module Store {
  import opened Wrappers
  import opened Bytes
  import opened Paths
  import opened Tables
  import opened Disk
  import opened ConflictCopies
  import opened Handlers
  import opened Sorting

  /** The bytes a file's meta row stands for. */
  function ContentOf(m: Meta): Data
  {
    if m.hash.Sha256? then m.hash.content else []
  }

  /** The disk has at p what a meta row says. */
  predicate Shows(d: Tree, p: Path, m: Meta)
  {
    p in d && if m.isDir then d[p].Dir? else d[p].File? && d[p].content == ContentOf(m)
  }

  /** Files and directories with a meta row are on disk as the row says; cleanup may have
      deleted conflict-marked ones. */
  ghost predicate Agrees(t: Tables, d: Tree)
  {
    forall p :: p in t.meta && !Reserved(p) ==> Shows(d, p, t.meta[p])
  }

  ghost predicate Consistent(s: State)
  {
    Recorded(s.db) && WellFormed(s.disk) && Agrees(s.db, s.disk)
  }

  /** The bytes of one recorded version; a deleted file has none. */
  ghost function ContentAt(t: Tables, p: Path, v: nat): Data
    requires Recorded(t) && 1 <= v <= |History(t, p)|
  {
    var rec := History(t, p)[v - 1];
    assert RecordOk(t, Key(p, v));
    if rec.change.Deleted? then [] else rec.hash.content
  }

  /** Everything the store knows about a live file coincides: disk bytes, size, digest, the
      newest version's record and blob, and the three places that hold its number. */
  lemma LiveFile(s: State, p: Path)
    requires Consistent(s) && Live(s.db, p)
    ensures var m := s.db.meta[p];
      p in s.db.head
      && m.version == s.db.head[p] == MaxVersion(s.db.version, p) == |History(s.db, p)| >= 1
    ensures var now := ContentAt(s.db, p, s.db.meta[p].version);
      s.db.meta[p].hash == Sha256(now) && s.db.meta[p].size == |now|
      && (if Key(p, s.db.head[p]) in s.db.blob then s.db.blob[Key(p, s.db.head[p])] == now else now == [])
      && (!Reserved(p) ==> p in s.disk && s.disk[p].File? && s.disk[p].content == now)
  {
    assert MetaOk(s.db, p);
    DenseCounter(s.db, p);
    assert RecordOk(s.db, Key(p, s.db.head[p]));
  }

  /** The version ResolveFileHead reports is the length of the history, and 0 for a directory. */
  lemma ResolvedVersion(s: State, p: Path)
    requires Recorded(s.db)
    ensures var head := ResolveHead(s, p);
      head.version == (if p in s.db.meta && s.db.meta[p].isDir then 0 else |History(s.db, p)|)
      && (Live(s.db, p) ==> head == FileHead(true, false, |History(s.db, p)|, s.db.meta[p].size, s.db.meta[p].hash))
  {
    DenseCounter(s.db, p);
    if p in s.db.meta { assert MetaOk(s.db, p); }
  }

  // ---------- accepted changes ----------

  lemma SaveIsAppendable(p: Path, m: Mutation, present: bool, full: Data, now: int)
    ensures var op := SaveOp(p, m, present, full, now);
      Appendable(Some(Meta(false, op.size, op.mtime, op.hash, 0)), Record(op.mtime, op.hash, op.size, op.change),
          op.data)
  { }

  /** A committed change: the next version, recording exactly the bytes now on disk, which are
      the mutation of the bytes that were there. */
  ghost predicate Committed(s: State, p: Path, m: Mutation, present: bool, wroteAt: int, now: int, s': State)
    requires Recorded(s.db) && Recorded(s'.db) && !Malformed(m)
  {
    var full := Applied(m, BytesAt(s.disk, p));
    var rec := Record(now, Sha256(full), |full|, if present then Modified else Created);
    && (s'.disk, true) == MutateFile(s.disk, p, m, wroteAt)
    && Extended(s.db, p, rec, if m.Put? && full == [] then None else Some(full), s'.db)
    && s'.db.meta == s.db.meta[p := Meta(false, |full|, now, Sha256(full), |History(s.db, p)| + 1)]
  }

  /** The transaction of a change, by itself. */
  lemma SaveAppends(t: Tables, p: Path, m: Mutation, present: bool, full: Data, now: int)
    requires Recorded(t)
    ensures var op := SaveOp(p, m, present, full, now);
      var r := Body(t, op);
      && r.Some? && Recorded(r.value.0) && r.value.1 == |History(t, p)| + 1
      && Extended(t, p, Record(now, Sha256(full), |full|, if present then Modified else Created),
                  if m.Put? && full == [] then None else Some(full), r.value.0)
      && r.value.0.meta == t.meta[p := Meta(false, |full|, now, Sha256(full), |History(t, p)| + 1)]
  {
    var op := SaveOp(p, m, present, full, now);
    SaveIsAppendable(p, m, present, full, now);
    AppendExtends(t, p, Some(Meta(false, op.size, op.mtime, op.hash, 0)),
      Record(op.mtime, op.hash, op.size, op.change), op.data);
  }

  lemma SaveCommits(
      s: State, p: Path, m: Mutation, present: bool, wroteAt: int, now: int, tx: seq<Attempt>)
    requires Recorded(s.db) && WellFormed(s.disk) && !Malformed(m) && p != ""
    requires MutateFile(s.disk, p, m, wroteAt).1
    ensures var d := MutateFile(s.disk, p, m, wroteAt).0;
      var r := Transact(s.db, SaveOp(p, m, present, BytesAt(d, p), now), tx);
      (r.Some? <==> Undisturbed(tx, MAX_ATTEMPTS))
      && (r.Some? ==>
        && Recorded(r.value.0)
        && r.value.1 == |History(s.db, p)| + 1
        && Committed(s, p, m, present, wroteAt, now, s.(db := r.value.0, disk := d)))
  {
    MutatedFile(s.disk, p, m, wroteAt);
    SaveAppends(s.db, p, m, present, Applied(m, BytesAt(s.disk, p)), now);
  }

  lemma CommittedAgrees(s: State, p: Path, m: Mutation, present: bool, wroteAt: int, now: int, s': State)
    requires Consistent(s) && Recorded(s'.db) && !Malformed(m) && p != ""
    requires Committed(s, p, m, present, wroteAt, now, s')
    ensures Consistent(s')
  {
    MutatedFile(s.disk, p, m, wroteAt);
  }

  lemma ConflictOutcome(s: State, p: Path, m: Mutation, base: nat, head: FileHead, e: Env)
    requires !Malformed(m)
    ensures var (s', r) := Conflict(s, p, m, base, head, e);
      s'.db == s.db && !r.Accepted? && (r.Conflicted? ==> r.version == head.version)
  { }

  lemma ApplyOutcome(s: State, p: Path, m: Mutation, head: FileHead, e: Env)
    requires Recorded(s.db) && WellFormed(s.disk) && p != "" && !Malformed(m)
    ensures var (s', r) := Apply(s, p, m, head, e);
      if r.Accepted? then
        Recorded(s'.db) && Committed(s, p, m, head.present, e.wroteAt, e.now, s') && r.version == |History(s.db, p)| + 1
      else r == Failed && s'.db == s.db
  {
    if MutateFile(s.disk, p, m, e.wroteAt).1 {
      SaveCommits(s, p, m, head.present, e.wroteAt, e.now, e.tx);
    }
  }

  /** Every outcome of a file change, with any environment. */
  lemma MutateOutcome(s: State, p: Path, m: Mutation, base: nat, e: Env)
    requires Recorded(s.db) && WellFormed(s.disk) && p != ""
    ensures var (s', r) := Mutate(s, p, m, base, e);
      var head := ResolveHead(s, p);
      (r.Accepted? && !NothingToDo(s.disk, p, m, head) ==>
        !Malformed(m) && Recorded(s'.db) && Committed(s, p, m, head.present, e.wroteAt, e.now, s')
        && r.version == |History(s.db, p)| + 1)
      && (r.Accepted? && NothingToDo(s.disk, p, m, head) ==> s' == s && r.version == head.version)
      && (!r.Accepted? ==> s'.db == s.db)
      && (r.Accepted? ==> !Stale(head, base))
      && (r.Conflicted? ==> Stale(head, base) && r.version == head.version)
  {
    if !Malformed(m) {
      var head := ResolveHead(s, p);
      if Stale(head, base) {
        assert Mutate(s, p, m, base, e) == Conflict(s, p, m, base, head, e);
        ConflictOutcome(s, p, m, base, head, e);
      } else if !NothingToDo(s.disk, p, m, head) {
        assert Mutate(s, p, m, base, e) == Apply(s, p, m, head, e);
        ApplyOutcome(s, p, m, head, e);
      }
    }
  }

  /** The shortcuts are sound: where they answer without writing, the file already holds what
      the change would have made of it. */
  lemma ShortcutIsSound(s: State, p: Path, m: Mutation)
    requires Consistent(s) && !Reserved(p) && !Malformed(m)
    requires NothingToDo(s.disk, p, m, ResolveHead(s, p)) && s.disk[p].File?
    ensures Applied(m, BytesAt(s.disk, p)) == BytesAt(s.disk, p)
    ensures ResolveHead(s, p).size == |BytesAt(s.disk, p)|
  {
    ResolvedVersion(s, p);
    if Live(s.db, p) { LiveFile(s, p); }
    if p in s.db.meta { assert Shows(s.disk, p, s.db.meta[p]); }
    if m.Resize? { SameSizeIsANoOp(BytesAt(s.disk, p)); }
  }

  lemma SameSizeIsANoOp(file: Data)
    ensures DiskTruncate(file, |file|) == file
  {
    assert file + Zeros(0) == file;
  }

  /** What an accepted change means to its caller: the file on disk is the change applied to
      what was there, its size is the one reported, and no other node is altered. */
  lemma AcceptedChangeIsOnDisk(s: State, p: Path, m: Mutation, base: nat, e: Env)
    requires Consistent(s) && p != "" && !Reserved(p)
    requires Mutate(s, p, m, base, e).1.Accepted? && !(p in s.disk && s.disk[p].Dir?)
    ensures var (s', r) := Mutate(s, p, m, base, e);
      var full := Applied(m, BytesAt(s.disk, p));
      && p in s'.disk && s'.disk[p].File? && s'.disk[p].content == full && r.size == ReplySize(m, |full|)
      && (forall q :: q in s.disk && q != p ==> q in s'.disk && s'.disk[q] == s.disk[q])
      && (forall q :: q in s'.disk && q !in s.disk && q != p ==> s'.disk[q].Dir?)
  {
    if NothingToDo(s.disk, p, m, ResolveHead(s, p)) {
      MutateOutcome(s, p, m, base, e);
      ShortcutIsSound(s, p, m);
    } else {
      MutatedFile(s.disk, p, m, e.wroteAt);
    }
  }

  /** An accepted write that names a base continues exactly the version of that number that is
      at the path when the request is handled, or finds nothing to change in it. Whether that is
      the version its writer has seen is settled in LostUpdates. */
  lemma BasedWriteContinuesItsBase(s: State, p: Path, m: Mutation, base: nat, e: Env)
    requires Consistent(s) && p != ""
    requires base != 0 && ResolveHead(s, p).version != 0
    requires Mutate(s, p, m, base, e).1.Accepted?
    ensures base == |History(s.db, p)|
    ensures var (s', r) := Mutate(s, p, m, base, e);
      (r.version == base + 1 && Recorded(s'.db) && |History(s'.db, p)| == base + 1
        && (!Reserved(p) && Live(s.db, p) ==>
          ContentAt(s'.db, p, base + 1) == Applied(m, ContentAt(s.db, p, base))))
      || (r.version == base && s' == s)
  {
    MutateOutcome(s, p, m, base, e);
    ResolvedVersion(s, p);
    if Live(s.db, p) { LiveFile(s, p); }
  }

  // ---------- conflicts ----------

  /** A copy is a new conflict-marked file beside everything that was there. */
  ghost predicate NewCopy(d: Tree, p: Path, data: Data, now: int, made: (Path, Tree))
  {
    var (q, d') := made;
    && q !in d && q != p && CopyOf(p, q)
    && WellFormed(d')
    && (forall x :: x in d ==> x in d' && d'[x] == d[x])
    && (forall x :: x in d' && x !in d && x != q ==> x in Ancestors(p) && d'[x].Dir?)
    && q in d' && d'[q] == File(data, now) && Ancestors(q) == Ancestors(p)
  }

  lemma {:induction false} CreatedCopy(d: Tree, p: Path, data: Data, tags: seq<string>, attempts: nat, now: int)
    requires WellFormed(d) && p != "" && forall t :: t in tags ==> t != "" && '/' !in t
    requires CreateCopy(d, p, data, tags, attempts, now).Some?
    ensures NewCopy(d, p, data, now, CreateCopy(d, p, data, tags, attempts, now).value)
    decreases attempts
  {
    var q := ConflictPath(p, tags[0]);
    assert tags[0] in tags;
    ConflictPathFacts(p, tags[0]);
    if q in d {
      assert forall t :: t in tags[1..] ==> t in tags;
      CreatedCopy(d, p, data, tags[1..], attempts - 1, now);
    } else {
      MadeDirs(d, q, Ancestors(q));
      AddedFile(MakeDirs(d, Ancestors(q)).value, q, File(data, now));
    }
  }

  /** What a conflict does to the disk: at most a new copy, and marked files may go. */
  lemma ConflictKeepsDisk(s: State, p: Path, m: Mutation, base: nat, head: FileHead, e: Env)
    requires WellFormed(s.disk) && ValidEnv(e) && p != "" && !Malformed(m)
    ensures var d' := Conflict(s, p, m, base, head, e).0.disk;
      && WellFormed(d')
      && (forall q :: q in s.disk && !(m.Put? && Reserved(q) && s.disk[q].File?) ==> q in d' && d'[q] == s.disk[q])
      && (forall q :: q in d' && q !in s.disk ==>
            (q in Ancestors(p) && d'[q].Dir?) || (Reserved(q) && Ancestors(q) == Ancestors(p)))
  {
    var data := CopyData(s.db, p, m, base);
    if data.Some? && e.diskOk && CreateCopy(s.disk, p, data.value, e.tags, MAX_COPY_ATTEMPTS, e.wroteAt).Some? {
      CreatedCopy(s.disk, p, data.value, e.tags, MAX_COPY_ATTEMPTS, e.wroteAt);
      var (q, d) := CreateCopy(s.disk, p, data.value, e.tags, MAX_COPY_ATTEMPTS, e.wroteAt).value;
      CopyIsReserved(p, q);
      CleanedTree(d, s.lastSweep, p, e.policy, e.cleanupAt, e.stuck);
    }
  }

  /** A conflict reports the version that is current, and for a live file its size. */
  lemma ConflictReportsCurrent(s: State, p: Path, m: Mutation, base: nat, e: Env)
    requires Consistent(s) && Mutate(s, p, m, base, e).1.Conflicted?
    ensures var r := Mutate(s, p, m, base, e).1;
      && r.version == |History(s.db, p)| != base
      && (Live(s.db, p) ==> r.size == ReplySize(m, |ContentAt(s.db, p, r.version)|))
  {
    ResolvedVersion(s, p);
    if Live(s.db, p) { LiveFile(s, p); }
  }

  /** A conflicting change leaves the file, its meta row and its whole history as they were;
      a copy it reports is a new file. */
  lemma ConflictChangesNothing(s: State, p: Path, m: Mutation, base: nat, e: Env)
    requires Consistent(s) && ValidEnv(e) && p != ""
    requires !Malformed(m) && Stale(ResolveHead(s, p), base)
    ensures var (s', r) := Mutate(s, p, m, base, e);
      Consistent(s') && s'.db == s.db && !r.Accepted?
      && (forall q :: q in s.disk && !(m.Put? && Reserved(q)) ==> q in s'.disk && s'.disk[q] == s.disk[q])
      && (!m.Put? ==> r.Conflicted?)
      && (r.Conflicted? ==> r.version == |History(s.db, p)|)
  {
    ResolvedVersion(s, p);
    ConflictOutcome(s, p, m, base, ResolveHead(s, p), e);
    ConflictKeepsDisk(s, p, m, base, ResolveHead(s, p), e);
  }

  /** The base snapshot can be loaded exactly when the base is a recorded version whose bytes
      were stored: only a WriteFile of nothing stores none. */
  lemma SnapshotLoads(t: Tables, p: Path, v: nat)
    requires Recorded(t) && v != 0
    ensures LoadSnapshot(t, p, v).Some? <==>
      v <= |History(t, p)| && (History(t, p)[v - 1].change.Deleted? || Key(p, v) in t.blob)
    ensures LoadSnapshot(t, p, v).Some? ==> LoadSnapshot(t, p, v) == Some(ContentAt(t, p, v))
  {
    if Key(p, v) in t.version { assert RecordOk(t, Key(p, v)); }
  }

  /** The tree just after the copy was written, before the cleanup. */
  ghost predicate Wrote(s: State, p: Path, m: Mutation, base: nat, e: Env, q: Path, d: Tree)
    requires !Malformed(m)
  {
    var data := CopyData(s.db, p, m, base);
    && data.Some? && e.diskOk
    && CreateCopy(s.disk, p, data.value, e.tags, MAX_COPY_ATTEMPTS, e.wroteAt) == Some((q, d))
  }

  /** A conflict copy holds what the change would have made of its base, at a path where
      nothing was; the one exception is an empty range write past the end of the base. The
      copy of a WriteFile is cleaned up at once exactly if it is already too old, or if as many
      copies as may stay claim to be newer, and it can be deleted. */
  lemma ConflictCopyHoldsTheChange(s: State, p: Path, m: Mutation, base: nat, e: Env) returns (d: Tree)
    requires Consistent(s) && ValidEnv(e) && p != ""
    requires !Malformed(m) && Stale(ResolveHead(s, p), base)
    requires Mutate(s, p, m, base, e).1.Conflicted? && Mutate(s, p, m, base, e).1.copy.Some?
    ensures var (s', r) := Mutate(s, p, m, base, e);
      var q := r.copy.value;
      && Wrote(s, p, m, base, e, q, d) && NewCopy(s.disk, p, CopyData(s.db, p, m, base).value, e.wroteAt, (q, d))
      && (m.Put? ==> CopyData(s.db, p, m, base) == Some(m.data))
      && (q in s'.disk ==> s'.disk[q] == d[q])
      && (m.Put? ==>
        (q in s'.disk <==>
          (q in e.stuck || (!TooOld(d, q, e.policy, e.cleanupAt)
                            && (e.policy.maxCopies <= 0 || |AheadOf(d, p, q)| < e.policy.maxCopies)))))
      && (!m.Put? ==>
        && q in s'.disk && base <= |History(s.db, p)|
        && (d[q].content == Applied(m, ContentAt(s.db, p, base))
          <==> !(m.Splice? && m.bytes == [] && m.offset > |ContentAt(s.db, p, base)|)))
  {
    var data := CopyData(s.db, p, m, base).value;
    CreatedCopy(s.disk, p, data, e.tags, MAX_COPY_ATTEMPTS, e.wroteAt);
    var made := CreateCopy(s.disk, p, data, e.tags, MAX_COPY_ATTEMPTS, e.wroteAt).value;
    var q := made.0;
    d := made.1;
    if m.Put? {
      CleanedCopy(d, s.lastSweep, p, e.policy, e.cleanupAt, e.stuck, q);
    } else {
      SnapshotLoads(s.db, p, base);
      var b := ContentAt(s.db, p, base);
      if m.Splice? {
        SpliceAgreesWithDisk(b, m.offset, m.bytes);
      } else {
        ResizeAgreesWithDisk(b, m.size);
      }
    }
  }

  lemma NewestOfAll(d0: Tree, p: Path, data: Data, now: int, q: Path, d: Tree)
    requires NewCopy(d0, p, data, now, (q, d))
    requires forall a :: a in Copies(d0, p) ==> Stamp(d0, a) < now
    ensures q in Copies(d, p) && Stamp(d, q) == now && AheadOf(d, p, q) == {}
  {
    forall a | a in Copies(d, p) ensures !Ahead(d, a, q) {
      if a == q {
        AheadIsIrreflexive(d, q);
      } else {
        assert a in d0;
        assert a in Copies(d0, p);
      }
    }
  }

  /** A WriteFile's copy is on disk with the caller's bytes when the server replies, provided
      no copy of the file on disk claims to be newer than the request and the cleanup does not
      start a whole lifetime later. */
  lemma ReportedCopyIsThere(s: State, p: Path, data: Data, base: nat, e: Env)
    requires Consistent(s) && ValidEnv(e) && p != ""
    requires Mutate(s, p, Put(data), base, e).1.Conflicted?
    requires e.policy.ttl <= 0 || e.cleanupAt - e.wroteAt <= e.policy.ttl
    requires forall a :: a in Copies(s.disk, p) ==> Stamp(s.disk, a) < e.wroteAt
    ensures var (s', r) := Mutate(s, p, Put(data), base, e);
      && r.copy.Some? && r.copy.value !in s.disk
      && r.copy.value in s'.disk && s'.disk[r.copy.value] == File(data, e.wroteAt)
  {
    var q := Mutate(s, p, Put(data), base, e).1.copy.value;
    var d := ConflictCopyHoldsTheChange(s, p, Put(data), base, e);
    NewestOfAll(s.disk, p, data, e.wroteAt, q, d);
  }

  // ---------- what else is left ----------

  /** A WriteFile's conflict writes the copy and cleans up after it. */
  lemma ConflictedWrite(s: State, p: Path, data: Data, base: nat, e: Env)
    requires Mutate(s, p, Put(data), base, e).1.Conflicted?
    ensures var copy := CreateCopy(s.disk, p, data, e.tags, MAX_COPY_ATTEMPTS, e.wroteAt);
      copy.Some? && Mutate(s, p, Put(data), base, e).0.disk
        == Cleaned(copy.value.1, s.lastSweep, p, e.policy, e.cleanupAt, e.stuck).0
  { }

  lemma CleanedIsLimited(d: Tree, last: Option<int>, p: Path, policy: CopyPolicy, now: int)
    requires policy.maxCopies > 0
    ensures |Copies(Cleaned(d, last, p, policy, now, {}).0, p)| <= policy.maxCopies
  {
    AtMostTheLimit(d, p, policy, now);
    var gone := Retired(d, p, policy, now);
    assert gone - {} == gone;
    SubsetSize(Copies(Cleaned(d, last, p, policy, now, {}).0, p), Copies(Pruned(d, gone), p));
  }

  /** Where a WriteFile's conflict left a copy and every removal worked, at most the allowed
      number of copies of the file is left. */
  lemma CopiesAreLimited(s: State, p: Path, data: Data, base: nat, e: Env)
    requires Consistent(s) && ValidEnv(e) && p != "" && e.stuck == {} && e.policy.maxCopies > 0
    requires Mutate(s, p, Put(data), base, e).1.Conflicted?
    ensures |Copies(Mutate(s, p, Put(data), base, e).0.disk, p)| <= e.policy.maxCopies
  {
    ConflictedWrite(s, p, data, base, e);
    var d := CreateCopy(s.disk, p, data, e.tags, MAX_COPY_ATTEMPTS, e.wroteAt).value.1;
    CleanedIsLimited(d, s.lastSweep, p, e.policy, e.cleanupAt);
  }

  /** A WriteFile removes no copy of another unmarked file unless it is too old. */
  lemma CleanupSparesOthers(s: State, p: Path, data: Data, base: nat, e: Env, p2: Path, q: Path)
    requires Consistent(s) && ValidEnv(e) && p != "" && !Reserved(p) && !Reserved(p2) && p2 != p
    requires q in Copies(s.disk, p2)
    ensures var s' := Mutate(s, p, Put(data), base, e).0;
      q !in s'.disk ==> TooOld(s.disk, q, e.policy, e.cleanupAt)
  {
    var m := Put(data);
    var head := ResolveHead(s, p);
    CopyIsReserved(p2, q);
    if Stale(head, base) {
      if e.diskOk && CreateCopy(s.disk, p, data, e.tags, MAX_COPY_ATTEMPTS, e.wroteAt).Some? {
        CreatedCopy(s.disk, p, data, e.tags, MAX_COPY_ATTEMPTS, e.wroteAt);
        var d := CreateCopy(s.disk, p, data, e.tags, MAX_COPY_ATTEMPTS, e.wroteAt).value.1;
        assert q in Copies(d, p2) && Stamp(d, q) == Stamp(s.disk, q);
        if q !in Cleaned(d, s.lastSweep, p, e.policy, e.cleanupAt, e.stuck).0 {
          OtherCopiesStay(d, s.lastSweep, p, e.policy, e.cleanupAt, e.stuck, q);
        }
      }
    } else {
      MutatedFile(s.disk, p, m, e.wroteAt);
    }
  }
}
