/** What each request is answered and what it does, for every state and every failure, told by
    nodes on disk, recorded versions and the fate of each attempt. */
module Answers {
  import opened Wrappers
  import opened Bytes
  import opened Paths
  import opened Tables
  import opened Disk
  import opened Handlers
  import opened Store
  import opened Agreement

  /** The version clients are told; a directory has none. */
  ghost function CurrentNumber(t: Tables, p: Path): nat
    requires Dense(t)
  {
    if p in t.meta && t.meta[p].isDir then 0 else |History(t, p)|
  }

  /** The request names a version, the path has versions, and it is another one. */
  ghost predicate Outdated(t: Tables, p: Path, base: nat)
    requires Dense(t)
  {
    base != 0 && CurrentNumber(t, p) != 0 && base != CurrentNumber(t, p)
  }

  /** The path has a row, or was never recorded and is on disk. */
  ghost predicate Known(s: State, p: Path)
  {
    p in s.db.meta || (p !in s.db.head && p in s.disk)
  }

  ghost function KnownSize(s: State, p: Path): nat
    requires Recorded(s.db) && Known(s, p)
  {
    if Live(s.db, p) then |Newest(s.db, p)|
    else if p in s.db.meta then 0
    else if s.disk[p].Dir? then DIR_STAT_SIZE else |s.disk[p].content|
  }

  /** The bytes of the newest version of a live file. */
  ghost function Newest(t: Tables, p: Path): Data
    requires Recorded(t) && Live(t, p)
  {
    assert MetaOk(t, p);
    ContentAt(t, p, |History(t, p)|)
  }

  /** A WriteFile of the bytes the live file has, or a SetFileSize to the size the path has. */
  ghost predicate AlreadySo(s: State, p: Path, m: Mutation)
    requires Recorded(s.db)
  {
    p in s.disk &&
    match m
    case Put(data) => Live(s.db, p) && Newest(s.db, p) == data
    case Splice(_, _) => false
    case Resize(size) => Known(s, p) && KnownSize(s, p) == size
  }

  lemma ResolvedByRows(s: State, p: Path)
    requires Recorded(s.db)
    ensures var head := ResolveHead(s, p);
      && head.version == CurrentNumber(s.db, p)
      && (head.present <==> Known(s, p))
      && (Known(s, p) ==> head.size == KnownSize(s, p))
      && (!Known(s, p) && p in s.db.head ==> head.size == 0)
      && (Live(s.db, p) ==> head.hash == Sha256(Newest(s.db, p)))
      && (!Live(s.db, p) && Known(s, p) ==> head.version == 0)
  {
    ResolvedVersion(s, p);
    DenseCounter(s.db, p);
    if p in s.db.meta { assert MetaOk(s.db, p); }
    if Live(s.db, p) { assert RecordOk(s.db, Key(p, s.db.head[p])); }
  }

  /** The shortcuts are taken exactly where there is nothing to change. */
  lemma ShortcutIsTaken(s: State, p: Path, m: Mutation)
    requires Recorded(s.db)
    ensures NothingToDo(s.disk, p, m, ResolveHead(s, p)) <==> AlreadySo(s, p, m)
  {
    ResolvedByRows(s, p);
    if Live(s.db, p) { assert MetaOk(s.db, p); }
  }

  /** The end of a positioned write is a file offset. */
  predicate FitsAFile(m: Mutation)
  {
    m.Splice? ==> m.offset + |m.bytes| <= 0x7FFF_FFFF_FFFF_FFFF
  }

  /** The change can be made on disk, read back and recorded. */
  predicate GoesThrough(d: Tree, p: Path, m: Mutation, e: Env)
  {
    && e.diskOk && WayIsFree(d, p) && !(p in d && d[p].Dir?) && FitsAFile(m)
    && (m.Put? || e.readOk) && GetsThrough(e.tx)
  }

  /** What a change that goes through does: the file and the directories above it are on disk,
      and the tables have one more version of it. */
  ghost predicate Changed(s: State, p: Path, m: Mutation, e: Env, s': State)
    requires Recorded(s.db) && !Malformed(m)
  {
    var full := Applied(m, BytesAt(s.disk, p));
    var change := if Known(s, p) then Modified else Created;
    && s'.lastSweep == s.lastSweep
    && s'.disk.Keys == s.disk.Keys + Ancestors(p) + {p} && OnlyDirsAdded(s.disk, s'.disk, {p})
    && s'.disk[p] == File(full, e.wroteAt)
    && Recorded(s'.db)
    && Extended(s.db, p, Record(e.now, Sha256(full), |full|, change),
                if m.Put? && full == [] then None else Some(full), s'.db)
    && s'.db.meta == s.db.meta[p := Meta(false, |full|, e.now, Sha256(full), |History(s.db, p)| + 1)]
  }

  /** Every change that is not outdated, of any path: answered at once if there is nothing to
      change; accepted, as the next version, exactly if it goes through, a file that is not there
      yet included; and otherwise failed, with the tables as they were. */
  lemma ChangeAnswer(s: State, p: Path, m: Mutation, base: nat, e: Env)
    requires Recorded(s.db) && WellFormed(s.disk) && p != ""
    requires !Malformed(m) && !Outdated(s.db, p, base)
    ensures var (s', r) := Mutate(s, p, m, base, e);
      if AlreadySo(s, p, m) then
        s' == s && r == Accepted(CurrentNumber(s.db, p), if m.Put? then None else Some(m.size))
      else if GoesThrough(s.disk, p, m, e) then
        && Changed(s, p, m, e, s')
        && r == Accepted(|History(s.db, p)| + 1, if m.Put? then None else Some(|Applied(m, BytesAt(s.disk, p))|))
      else r == Failed && s'.db == s.db
  {
    ShortcutIsTaken(s, p, m);
    ResolvedByRows(s, p);
    ChangedNodes(s.disk, p, m, e.wroteAt);
    LandsIffItGetsThrough(e.tx);
    var head := ResolveHead(s, p);
    if !AlreadySo(s, p, m) {
      assert Mutate(s, p, m, base, e) == Apply(s, p, m, head, e);
      if MutateFile(s.disk, p, m, e.wroteAt).1 {
        SaveCommits(s, p, m, head.present, e.wroteAt, e.now, e.tx);
      }
    }
  }

  lemma MalformedAnswer(s: State, p: Path, m: Mutation, base: nat, e: Env)
    requires Malformed(m)
    ensures (m.Splice? && m.offset < 0) || (m.Resize? && m.size < 0)
    ensures Mutate(s, p, m, base, e) == (s, Failed)
  { }

  // ---------- outdated changes ----------

  /** The first of the generated names that is free. */
  predicate FirstFree(d: Tree, p: Path, tags: seq<string>, i: nat)
  {
    && i < |tags| && ConflictPath(p, tags[i]) !in d
    && forall j :: 0 <= j < i ==> ConflictPath(p, tags[j]) in d
  }

  predicate SomeFree(d: Tree, p: Path, tags: seq<string>, n: nat)
  {
    exists i :: 0 <= i < n && FirstFree(d, p, tags, i)
  }

  /** q is the first of the first n names that is free. */
  predicate TakesFirstFree(d: Tree, p: Path, tags: seq<string>, n: nat, q: Path)
  {
    exists i :: 0 <= i < n && FirstFree(d, p, tags, i) && q == ConflictPath(p, tags[i])
  }

  lemma FreeAfterTaken(d: Tree, p: Path, tags: seq<string>, n: nat, q: Path)
    requires n > 0 && tags != [] && ConflictPath(p, tags[0]) in d
    ensures SomeFree(d, p, tags, n) <==> SomeFree(d, p, tags[1..], n - 1)
    ensures TakesFirstFree(d, p, tags[1..], n - 1, q) ==> TakesFirstFree(d, p, tags, n, q)
  {
    if i :| 0 <= i < n - 1 && FirstFree(d, p, tags[1..], i) { NextName(d, p, tags, i); }
    if i :| 0 <= i < n && FirstFree(d, p, tags, i) { NextName(d, p, tags, i - 1); }
    if i :| 0 <= i < n - 1 && FirstFree(d, p, tags[1..], i) && q == ConflictPath(p, tags[1..][i]) {
      NextName(d, p, tags, i);
      assert tags[1..][i] == tags[i + 1];
    }
  }

  lemma CopyUnfolds(d: Tree, p: Path, data: Data, tags: seq<string>, attempts: nat, now: int)
    requires attempts > 0 && tags != [] && Ancestors(ConflictPath(p, tags[0])) == Ancestors(p)
    ensures var r := CreateCopy(d, p, data, tags, attempts, now);
      if !WayIsFree(d, p) then r == None
      else if ConflictPath(p, tags[0]) in d then r == CreateCopy(d, p, data, tags[1..], attempts - 1, now)
      else r.Some? && r.value.0 == ConflictPath(p, tags[0])
  { }

  lemma {:induction false} CopyGetsFirstFreeName(
      d: Tree, p: Path, data: Data, tags: seq<string>, attempts: nat, now: int)
    requires p != "" && forall t :: t in tags ==> t != "" && '/' !in t
    ensures var r := CreateCopy(d, p, data, tags, attempts, now);
      && (r.Some? <==> WayIsFree(d, p) && SomeFree(d, p, tags, attempts))
      && (r.Some? ==> TakesFirstFree(d, p, tags, attempts, r.value.0))
    decreases attempts
  {
    if attempts > 0 && tags != [] {
      assert tags[0] in tags;
      ConflictPathFacts(p, tags[0]);
      CopyUnfolds(d, p, data, tags, attempts, now);
      if ConflictPath(p, tags[0]) !in d {
        assert FirstFree(d, p, tags, 0);
      } else if WayIsFree(d, p) {
        assert forall t :: t in tags[1..] ==> t in tags;
        CopyGetsFirstFreeName(d, p, data, tags[1..], attempts - 1, now);
        var r := CreateCopy(d, p, data, tags[1..], attempts - 1, now);
        FreeAfterTaken(d, p, tags, attempts, if r.Some? then r.value.0 else p);
      }
    }
  }

  lemma NextName(d: Tree, p: Path, tags: seq<string>, i: nat)
    requires tags != [] && ConflictPath(p, tags[0]) in d
    ensures FirstFree(d, p, tags[1..], i) <==> FirstFree(d, p, tags, i + 1)
  {
    forall j | 0 <= j < |tags| - 1 ensures tags[1..][j] == tags[j + 1] { }
    if FirstFree(d, p, tags[1..], i) {
      forall j | 0 <= j < i + 1 ensures ConflictPath(p, tags[j]) in d {
        if j > 0 { assert tags[1..][j - 1] == tags[j]; }
      }
    }
    if FirstFree(d, p, tags, i + 1) {
      forall j | 0 <= j < i ensures ConflictPath(p, tags[1..][j]) in d {
        assert tags[1..][j] == tags[j + 1];
      }
    }
  }

  /** A copy can be written: one of the first 32 generated names is free, beside a path that no
      file stands in the way of. */
  predicate RoomForCopy(d: Tree, p: Path, e: Env)
  {
    e.diskOk && WayIsFree(d, p) && SomeFree(d, p, e.tags, 32)
  }

  /** What the change would have made of its base is known and fits a slice: the base is a
      recorded version that is a deletion or has its bytes stored. */
  ghost predicate CopyIsKnown(t: Tables, p: Path, m: Mutation, base: nat)
    requires Dense(t)
  {
    m.Put? ||
    (&& 1 <= base <= |History(t, p)|
     && (History(t, p)[base - 1].change.Deleted? || Key(p, base) in t.blob)
     && (if m.Splice? then m.offset + |m.bytes| else m.size) <= 0x7FFF_FFFF_FFFF_FFFF)
  }

  /** Every outdated change: the tables stay and the current version is reported. A WriteFile
      fails exactly if there is no room for its copy; a range write or resize is always answered
      with the conflict, and with a copy exactly if there is room and its content is known. */
  lemma ConflictAnswer(s: State, p: Path, m: Mutation, base: nat, e: Env)
    requires Recorded(s.db) && WellFormed(s.disk) && ValidEnv(e) && p != ""
    requires !Malformed(m) && Outdated(s.db, p, base)
    ensures var (s', r) := Mutate(s, p, m, base, e);
      var copied := RoomForCopy(s.disk, p, e) && CopyIsKnown(s.db, p, m, base);
      && s'.db == s.db
      && (!copied ==> s' == s)
      && (r.Conflicted? <==> copied || !m.Put?) && (!r.Conflicted? ==> r == Failed)
      && (r.Conflicted? ==>
            && r.version == CurrentNumber(s.db, p) == |History(s.db, p)|
            && r.size == (if m.Put? then None else Some(if Live(s.db, p) then |Newest(s.db, p)| else 0))
            && (r.copy.Some? <==> copied)
            && (copied ==> TakesFirstFree(s.disk, p, e.tags, 32, r.copy.value)))
  {
    ResolvedByRows(s, p);
    var head := ResolveHead(s, p);
    assert Mutate(s, p, m, base, e) == Conflict(s, p, m, base, head, e);
    var data := CopyData(s.db, p, m, base);
    SnapshotLoads(s.db, p, base);
    assert data.Some? <==> CopyIsKnown(s.db, p, m, base);
    if data.Some? { CopyGetsFirstFreeName(s.disk, p, data.value, e.tags, MAX_COPY_ATTEMPTS, e.wroteAt); }
  }

  // ---------- deletes, new directories, renames ----------

  /** Every delete: accepted exactly if the node is there, nothing lies below it, and the
      transaction gets through. */
  lemma DeleteAnswer(s: State, p: Path, e: Env)
    requires Recorded(s.db)
    ensures var (s', r) := Delete(s, p, e);
      var goes := e.diskOk && p in s.disk && forall q :: q in s.disk ==> !Under(p, q);
      && (goes ==> s'.disk.Keys == s.disk.Keys - {p} && forall q :: q in s'.disk ==> s'.disk[q] == s.disk[q])
      && (!goes ==> s'.disk == s.disk)
      && (if goes && GetsThrough(e.tx) then
            && r == Accepted(|History(s.db, p)| + 1, None)
            && Recorded(s'.db) && s'.db.meta == s.db.meta - {p}
            && Extended(s.db, p, Record(e.now, NoDigest, if p in s.db.meta then s.db.meta[p].size else 0, Deleted),
                        None, s'.db)
          else r == Failed && s'.db == s.db)
  {
    RemovedNodes(s.disk, p);
    LandsIffItGetsThrough(e.tx);
    RemovalAppends(s.db, p, if p in s.db.meta then s.db.meta[p].size else 0, e.now);
  }

  /** Every mkdir: accepted exactly if no file stands there or above and the one statement works. */
  lemma MkdirAnswer(s: State, p: Path, e: Env)
    ensures var (s', r) := MakeDir(s, p, e);
      var made := e.diskOk && WayIsFree(s.disk, p) && !(p in s.disk && s.disk[p].File?);
      && (made ==> s'.disk.Keys == s.disk.Keys + Ancestors(p) + {p} && OnlyDirsAdded(s.disk, s'.disk, {}))
      && (made ==> s'.disk[p].Dir?)
      && (!made ==> s'.disk == s.disk)
      && (if made && e.tx != [] && e.tx[0].Clean? then
            r == Accepted(0, None) && s'.db == s.db.(meta := s.db.meta[p := Meta(true, 0, 0, NoDigest, 0)])
          else r == Failed && s'.db == s.db)
  {
    MadeNodes(s.disk, p);
  }

  /** Every rename: accepted exactly if the disk can move the tree, the transaction gets through
      and no two rows would share a path. A refused one leaves the tables and, unless moving the
      tree back fails, all nodes but a replaced target. */
  lemma RenameAnswer(s: State, from: Path, to: Path, e: Env)
    requires Recorded(s.db) && WellFormed(s.disk) && from != "" && to != ""
    ensures var (s', r) := Move(s, from, to, e);
      var moves := e.diskOk && from in s.disk && WayIsFree(s.disk, to) && !Under(from, to)
                && (to in s.disk ==> s.disk[to].File? && s.disk[from].File?);
      var image := PathImage(from, to);
      var lands := GetsThrough(e.tx) && Injective(s.db.head.Keys, image) && Injective(s.db.meta.Keys, image);
      if from == to then s' == s && r == Accepted(0, None)
      else if moves && lands then
        && r == Accepted(0, None) && Recorded(s'.db) && MovedAlong(s.db, image, s'.db)
        && TreeAt(s.disk, from, to, s'.disk)
      else
        && r == Failed && s'.db == s.db
        && (!moves || e.revertOk ==>
              forall q :: q in s.disk && (moves ==> q != to) ==> q in s'.disk && s'.disk[q] == s.disk[q])
        && (moves && !e.revertOk ==> TreeAt(s.disk, from, to, s'.disk))
  {
    if from != to {
      RenamedNodes(s.disk, from, to);
      LandsIffItGetsThrough(e.tx);
      RenameRefusal(s.db, from, to);
      if RenameNode(s.disk, from, to).1 {
        TreeIsMoved(s.disk, from, to);
        RevertedNode(s.disk, from, to);
        if RenameTx(s.db, from, to).Some? { RenameMovesFiles(s.db, from, to); }
      }
    }
  }

  /** The whole tree of from is at to, with the directories above it, and everything else stays. */
  ghost predicate TreeAt(d: Tree, from: Path, to: Path, d': Tree)
  {
    && (forall q :: q in d && q != to ==> Relocate(from, to, q) in d' && d'[Relocate(from, to, q)] == d[q])
    && (forall q :: q in d' ==> NewOrMoved(d, from, to, d', q))
    && (forall a :: a in Ancestors(to) ==> a in d' && d'[a].Dir?)
  }

  lemma ComesFromTree(d: Tree, from: Path, to: Path, d1: Tree, p: Path)
    requires p in d1 && d1.Keys == d.Keys + Ancestors(to) && p !in d && !Under(from, to)
    ensures p in Ancestors(to) && Relocate(from, to, p) == p
  {
    if AtOrUnder(from, p) { UnderTransitive(from, p, to); }
  }

  lemma TreeIsMoved(d: Tree, from: Path, to: Path)
    requires WellFormed(d) && from != "" && to != "" && from != to && RenameNode(d, from, to).1
    ensures TreeAt(d, from, to, RenameNode(d, from, to).0)
  {
    RenamedNode(d, from, to);
    MadeDirs(d, to, Ancestors(to));
    var d1, d' := MakeDirs(d, Ancestors(to)).value, RenameNode(d, from, to).0;
    ShiftLeavesTree(d, from, to, d1, d');
  }

  lemma ShiftLeavesTree(d: Tree, from: Path, to: Path, d1: Tree, d': Tree)
    requires WellFormed(d') && Shiftable(d1, from, to) && ShiftOf(d1, from, to, d') && from in d
    requires d1.Keys == d.Keys + Ancestors(to) && OnlyDirsAdded(d, d1, {})
    requires forall a :: a in Ancestors(to) ==> d1[a].Dir?
    ensures TreeAt(d, from, to, d')
  {
    forall q | q in d && q != to ensures Relocate(from, to, q) in d' && d'[Relocate(from, to, q)] == d[q] {
      assert q in d1 && d1[q] == d[q];
    }
    forall q | q in d' ensures NewOrMoved(d, from, to, d', q) {
      var p :| p in d1 && p != to && Relocate(from, to, p) == q;
      if p !in d { ComesFromTree(d, from, to, d1, p); }
    }
    RelocatedLiesInTarget(from, to, from);
    assert from in d1 && from != to;
    DirsAbove(d', to);
  }

  lemma DirsAbove(d: Tree, p: Path)
    requires WellFormed(d) && p in d
    ensures forall a :: a in Ancestors(p) ==> a in d && d[a].Dir?
  { }

  /** A node of the tree after the move is a directory above the target, or comes from before. */
  ghost predicate NewOrMoved(d: Tree, from: Path, to: Path, d': Tree, q: Path)
    requires q in d'
  {
    (q in Ancestors(to) && d'[q].Dir?) || exists p :: p in d && p != to && Relocate(from, to, p) == q
  }
}
