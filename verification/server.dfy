/** The request handlers as they run: each statement in order, against the handler functions. */
module Server {
  import opened Wrappers
  import opened Bytes
  import opened Paths
  import opened Tables
  import opened Disk
  import opened Sorting
  import opened ConflictCopies
  import opened Handlers
  import opened VersionStore

  datatype Chunk = Chunk(path: Path, base: nat, data: Data)

  /** The bytes of a stream of chunks. */
  function Joined(chunks: seq<Chunk>): Data
  {
    if chunks == [] then [] else Joined(chunks[..|chunks| - 1]) + chunks[|chunks| - 1].data
  }

  /** The chunks' bytes, in the order they came. */
  lemma {:induction false} JoinedInOrder(a: seq<Chunk>, b: seq<Chunk>)
    ensures Joined(a + b) == Joined(a) + Joined(b)
    ensures forall c :: Joined([c]) == c.data
    decreases |b|
  {
    forall c ensures Joined([c]) == c.data { assert [c][..0] == []; }
    if b == [] {
      assert a + b == a;
    } else {
      var n := |b| - 1;
      JoinedInOrder(a, b[..n]);
      assert (a + b)[..|a + b| - 1] == a + b[..n];
    }
  }

  class FileServer {
    const store: VersionStore
    var disk: Tree
    var lastSweep: Option<int>

    ghost function Current(): State
      reads this, store
    {
      State(store.Rows(), disk, lastSweep)
    }

    constructor (initial: Tree)
      ensures fresh(store) && Current() == State(EMPTY, initial, None)
    {
      store := new VersionStore();
      disk := initial;
      lastSweep := None;
    }

    method ResolveFileHead(p: Path) returns (head: FileHead)
      ensures head == ResolveHead(Current(), p)
    {
      head := NO_HEAD;
      var latest := store.GetLatestRecord(p);
      if latest.Some? {
        var (n, rec) := latest.value;
        head := head.(version := n, hash := rec.hash);
        if rec.change.Deleted? {
          head := head.(deleted := true, size := 0);
        } else {
          head := head.(size := rec.size);
        }
      }
      if p in store.meta {
        var m := store.meta[p];
        head := head.(present := true, deleted := false, version := m.version, size := m.size, hash := m.hash);
        return;
      }
      if head.deleted {
        return;
      }
      if p in disk {
        head := head.(present := true, size := StatSize(disk[p]));
      }
    }

    /** Tries generated names until one is free, at most 32 times. */
    method WriteConflictFile(p: Path, data: Data, e: Env) returns (copy: Option<Path>)
      requires ValidEnv(e)
      modifies this`disk
      ensures var made := if !e.diskOk then None
                          else CreateCopy(old(disk), p, data, e.tags, MAX_COPY_ATTEMPTS, e.wroteAt);
        if made.Some? then copy == Some(made.value.0) && disk == made.value.1
        else copy == None && disk == old(disk)
    {
      if !e.diskOk {
        return None;
      }
      var attempt := 0;
      while attempt < MAX_COPY_ATTEMPTS
        invariant 0 <= attempt <= MAX_COPY_ATTEMPTS && disk == old(disk)
        invariant CreateCopy(disk, p, data, e.tags, MAX_COPY_ATTEMPTS, e.wroteAt)
          == CreateCopy(disk, p, data, e.tags[attempt..], MAX_COPY_ATTEMPTS - attempt, e.wroteAt)
      {
        var q := ConflictPath(p, e.tags[attempt]);
        assert e.tags[attempt..][0] == e.tags[attempt];
        var parents := MakeDirs(disk, Ancestors(q));
        if parents.None? {
          return None;
        }
        if q !in disk {
          disk := parents.value[q := File(data, e.wroteAt)];
          return Some(q);
        }
        assert e.tags[attempt..][1..] == e.tags[attempt + 1..];
        attempt := attempt + 1;
      }
      return None;
    }

    /** Newest first, every candidate that is too old or has as many before it as may stay. */
    method CleanupConflictCopiesForPath(p: Path, policy: CopyPolicy, now: int, stuck: set<Path>)
      modifies this`disk
      ensures disk == Pruned(old(disk), Retired(old(disk), p, policy, now) - stuck)
    {
      ghost var before := disk;
      var candidates := Candidates(p);
      var idx := 0;
      while idx < |candidates|
        invariant 0 <= idx <= |candidates|
        invariant disk == Pruned(before, Retired(before, p, policy, now) * SetOf(candidates[..idx]) - stuck)
      {
        var q := candidates[idx];
        OneMoreCandidate(before, p, candidates, idx);
        CopyIsReserved(p, q);
        var remove := false;
        if policy.ttl > 0 && now - Stamp(disk, q) > policy.ttl {
          remove := true;
        }
        if !remove && policy.maxCopies > 0 && idx >= policy.maxCopies {
          remove := true;
        }
        if remove && q !in stuck {
          disk := disk - {q};
        }
        idx := idx + 1;
      }
      assert candidates[..|candidates|] == candidates;
    }

    /** The listing of p's directory, filtered and sorted. */
    method Candidates(p: Path) returns (candidates: seq<Path>)
      ensures Ranked(disk, p, candidates)
    {
      var found: seq<Path> := [];
      var rest := disk.Keys;
      while rest != {}
        invariant rest <= disk.Keys
        invariant Distinct(found) && SetOf(found) == Copies(disk, p) - rest
        decreases |rest|
      {
        var q :| q in rest;
        rest := rest - {q};
        if disk[q].File? && CopyOf(p, q) {
          assert q !in SetOf(found);
          SetOfAppend(found, q);
          found := found + [q];
        }
      }
      var stamps := disk;
      NewestFirstIsTotal(stamps);
      candidates := Sort(found, NewestFirst(stamps));
      SortedIsRanked(disk, p, found, candidates);
    }

    /** The sweep over the whole tree, at most once an interval. */
    method MaybeCleanupExpiredConflictFiles(policy: CopyPolicy, now: int, stuck: set<Path>)
      modifies this`disk, this`lastSweep
      ensures if SweepDue(old(lastSweep), policy, now)
        then disk == Pruned(old(disk), Expired(old(disk), policy, now) - stuck) && lastSweep == Some(now)
        else disk == old(disk) && lastSweep == old(lastSweep)
    {
      if policy.ttl <= 0 || policy.interval <= 0 {
        return;
      }
      if lastSweep.Some? && now - lastSweep.value < policy.interval {
        return;
      }
      lastSweep := Some(now);
      ghost var before := disk;
      var rest := disk.Keys;
      while rest != {}
        invariant rest <= before.Keys && lastSweep == Some(now)
        invariant disk == Pruned(before, Expired(before, policy, now) - rest - stuck)
        decreases |rest|
      {
        var q :| q in rest;
        assert q in disk;
        if disk[q].File? && Reserved(q) && Walked(q) && now - disk[q].mtime > policy.ttl && q !in stuck {
          disk := disk - {q};
        }
        rest := rest - {q};
      }
    }

    /** The background janitor's removals, one by one. */
    method TidyConflictFiles(gone: set<Path>)
      modifies this`disk
      ensures disk == Pruned(old(disk), gone)
    {
      var rest := gone;
      while rest != {}
        invariant rest <= gone
        invariant disk == Pruned(old(disk), gone - rest)
        decreases |rest|
      {
        var q :| q in rest;
        if q in disk && Reserved(q) && disk[q].File? {
          disk := disk - {q};
        }
        rest := rest - {q};
      }
      assert gone - rest == gone;
    }

    method LoadVersionSnapshot(p: Path, v: nat) returns (r: Option<Data>)
      ensures r == LoadSnapshot(store.Rows(), p, v)
    {
      if v == 0 {
        return Some([]);
      }
      var key := Key(p, v);
      if key !in store.version {
        return None;
      }
      if store.version[key].change.Deleted? {
        return Some([]);
      }
      return if key in store.blob then Some(store.blob[key]) else None;
    }

    method SaveFileSnapshot(p: Path, present: bool, full: Data, isNil: bool, e: Env) returns (v: Option<nat>)
      requires ValidEnv(e)
      modifies store
      ensures var op := Save(p, |full|, e.now, Sha256(full), if present then Modified else Created,
                             if isNil then None else Some(full));
        var r := Transact(old(store.Rows()), op, e.tx);
        if r.Some? then v == Some(r.value.1) && store.Rows() == r.value.0
        else v == None && store.Rows() == old(store.Rows())
    {
      var changeType := Modified;
      if !present {
        changeType := Created;
      }
      v := store.WithWriteTx(
        Save(p, |full|, e.now, Sha256(full), changeType, if isNil then None else Some(full)), e.tx);
    }

    method WriteFile(p: Path, data: Data, base: nat, e: Env) returns (r: Reply)
      requires ValidEnv(e)
      modifies this`disk, this`lastSweep, store
      ensures (Current(), r) == Mutate(old(Current()), p, Put(data), base, e)
    {
      var head := ResolveFileHead(p);
      if base != 0 && head.version != 0 && base != head.version {
        var copy := WriteConflictFile(p, data, e);
        if copy.None? {
          return Failed;
        }
        CleanupConflictCopiesForPath(p, e.policy, e.cleanupAt, e.stuck);
        MaybeCleanupExpiredConflictFiles(e.policy, e.cleanupAt, e.stuck);
        return Conflicted(head.version, None, copy);
      }
      if head.present && head.version != 0 && Sha256(data) == head.hash && p in disk {
        return Accepted(head.version, None);
      }
      if !e.diskOk {
        return Failed;
      }
      var (d, ok) := MutateFile(disk, p, Put(data), e.wroteAt);
      disk := d;
      if !ok {
        return Failed;
      }
      var v := SaveFileSnapshot(p, head.present, data, data == [], e);
      return if v.Some? then Accepted(v.value, None) else Failed;
    }

    /** Only the first chunk names the file and its base. */
    method WriteFileStream(chunks: seq<Chunk>, e: Env) returns (r: Reply)
      requires ValidEnv(e)
      modifies this`disk, this`lastSweep, store
      ensures chunks == [] ==> r == Failed && Current() == old(Current())
      ensures chunks != [] ==>
        (Current(), r) == Mutate(old(Current()), chunks[0].path, Put(Joined(chunks)), chunks[0].base, e)
    {
      var path, base, buf, first := "", 0, [], true;
      for i := 0 to |chunks|
        invariant first <==> i == 0
        invariant i > 0 ==> path == chunks[0].path && base == chunks[0].base
        invariant buf == Joined(chunks[..i])
      {
        if first {
          path, base, first := chunks[i].path, chunks[i].base, false;
        }
        buf := buf + chunks[i].data;
        assert chunks[..i + 1][..i] == chunks[..i];
      }
      if first {
        return Failed;
      }
      assert chunks[..|chunks|] == chunks;
      r := WriteFile(path, buf, base, e);
    }

    method WriteFileRange(p: Path, offset: int, data: Data, base: nat, e: Env) returns (r: Reply)
      requires ValidEnv(e) && -MAX_INT64 - 1 <= offset <= MAX_INT64 && |data| <= MAX_INT64
      requires forall k :: k in store.blob ==> |store.blob[k]| <= MAX_INT64
      modifies this`disk, store
      ensures (Current(), r) == Mutate(old(Current()), p, Splice(offset, data), base, e)
    {
      if offset < 0 {
        return Failed;
      }
      var head := ResolveFileHead(p);
      if base != 0 && head.version != 0 && base != head.version {
        var copy: Option<Path> := None;
        var baseData := LoadVersionSnapshot(p, base);
        if baseData.Some? {
          var built := ApplyRangeMutation(baseData.value, offset, data, MAX_INT64);
          if built.Ok? {
            copy := WriteConflictFile(p, built.value, e);
          }
        }
        return Conflicted(head.version, Some(head.size), copy);
      }
      if !e.diskOk {
        return Failed;
      }
      var (d, ok) := MutateFile(disk, p, Splice(offset, data), e.wroteAt);
      disk := d;
      if !ok {
        return Failed;
      }
      if !e.readOk {
        return Failed;
      }
      var fullData := BytesAt(disk, p);
      var v := SaveFileSnapshot(p, head.present, fullData, false, e);
      return if v.Some? then Accepted(v.value, Some(|fullData|)) else Failed;
    }

    method SetFileSize(p: Path, size: int, base: nat, e: Env) returns (r: Reply)
      requires ValidEnv(e) && -MAX_INT64 - 1 <= size <= MAX_INT64
      requires forall k :: k in store.blob ==> |store.blob[k]| <= MAX_INT64
      modifies this`disk, store
      ensures (Current(), r) == Mutate(old(Current()), p, Resize(size), base, e)
    {
      if size < 0 {
        return Failed;
      }
      var head := ResolveFileHead(p);
      if base != 0 && head.version != 0 && base != head.version {
        var copy: Option<Path> := None;
        var baseData := LoadVersionSnapshot(p, base);
        if baseData.Some? {
          var built := ResizeFileData(baseData.value, size, MAX_INT64);
          if built.Ok? {
            copy := WriteConflictFile(p, built.value, e);
          }
        }
        return Conflicted(head.version, Some(head.size), copy);
      }
      if head.present && head.size == size && p in disk {
        return Accepted(head.version, Some(head.size));
      }
      if !e.diskOk {
        return Failed;
      }
      var (d, ok) := MutateFile(disk, p, Resize(size), e.wroteAt);
      disk := d;
      if !ok {
        return Failed;
      }
      if !e.readOk {
        return Failed;
      }
      var fullData := BytesAt(disk, p);
      var v := SaveFileSnapshot(p, head.present, fullData, false, e);
      return if v.Some? then Accepted(v.value, Some(|fullData|)) else Failed;
    }

    method Delete(p: Path, e: Env) returns (r: Reply)
      requires ValidEnv(e)
      modifies this`disk, store
      ensures (Current(), r) == Handlers.Delete(old(Current()), p, e)
    {
      var size := 0;
      if p in store.meta {
        size := store.meta[p].size;
      }
      if !e.diskOk {
        return Failed;
      }
      var d := RemoveNode(disk, p);
      if d.None? {
        return Failed;
      }
      disk := d.value;
      var v := store.WithWriteTx(Remove(p, size, e.now), e.tx);
      return if v.Some? then Accepted(v.value, None) else Failed;
    }

    method Mkdir(p: Path, e: Env) returns (r: Reply)
      requires ValidEnv(e)
      modifies this`disk, store
      ensures (Current(), r) == MakeDir(old(Current()), p, e)
    {
      if !e.diskOk {
        return Failed;
      }
      var d := MakeDirs(disk, Ancestors(p) + {p});
      if d.None? {
        return Failed;
      }
      disk := d.value;
      if !e.tx[0].Clean? {
        return Failed;
      }
      store.meta := store.meta[p := DIR_META];
      return Accepted(0, None);
    }

    method Rename(from: Path, to: Path, e: Env) returns (r: Reply)
      requires ValidEnv(e)
      modifies this`disk, store
      ensures (Current(), r) == Move(old(Current()), from, to, e)
    {
      if from == to {
        return Accepted(0, None);
      }
      if !e.diskOk {
        return Failed;
      }
      var (d, ok) := RenameNode(disk, from, to);
      disk := d;
      if !ok {
        return Failed;
      }
      var v := store.WithWriteTx(TxOp.Rename(from, to), e.tx);
      if v.None? {
        if e.revertOk {
          disk := RenameNode(disk, to, from).0;
        }
        return Failed;
      }
      return Accepted(0, None);
    }
  }
}
