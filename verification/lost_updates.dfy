/** What a base version guarantees across a whole run: the number names the version its reader
    saw exactly as long as the file is at the path where it was read. */
module LostUpdates {
  import opened Wrappers
  import opened Bytes
  import opened Paths
  import opened Like
  import opened Tables
  import opened Disk
  import opened Handlers
  import opened Store
  import opened Agreement
  import opened Runs
  import opened Failures

  /** Where a version is after a run: at the place of its file, under its own number. */
  ghost function Place(s: State, script: Script, k: Key): Key
  {
    Key(Destination(s, script, k.path), k.version)
  }

  /** No two versions come to one place. */
  lemma OneVersionAtAPlace(s: State, script: Script, j: Key, k: Key)
    requires Recorded(s.db) && WellFormed(s.disk) && Proper(script) && NamedAll(script)
    requires j in s.db.version && k in s.db.version && Place(s, script, j) == Place(s, script, k)
    ensures j == k
  {
    if j.path != k.path { RunNeverMerges(s, script, j.path, k.path); }
  }

  /** Along every run a version is found at its place with its record and content, and whichever
      old version is found under a path and a number is the one that was there at the start if
      and only if renames have left its file at the path, or brought it back. */
  lemma SameVersionIff(s: State, script: Script, p: Path, v: nat)
    requires Recorded(s.db) && WellFormed(s.disk) && Proper(script) && NamedAll(script)
    requires 1 <= v <= |History(s.db, p)|
    ensures Recorded(Run(s, script).db)
    ensures var t, q := Run(s, script).db, Destination(s, script, p);
      v <= |History(t, q)| && History(t, q)[v - 1] == History(s.db, p)[v - 1]
          && ContentAt(t, q, v) == ContentAt(s.db, p, v)
    ensures forall k :: k in s.db.version && Place(s, script, k) == Key(p, v) ==>
      (k == Key(p, v) <==> Destination(s, script, p) == p)
  {
    RunKeepsHistory(s, script, p);
    var t, q := Run(s, script).db, Destination(s, script, p);
    assert History(t, q)[v - 1] == History(s.db, p)[v - 1];
    assert Key(p, v) in s.db.version;
    forall k | k in s.db.version && Place(s, script, k) == Key(p, v)
      ensures k == Key(p, v) <==> Destination(s, script, p) == p
    {
      if Destination(s, script, p) == p { OneVersionAtAPlace(s, script, k, Key(p, v)); }
    }
  }

  /** An accepted write whose base a reader took from p before any run. If the file is still, or
      again, at p, the write is made to the version the reader saw and its result is the change
      of exactly those bytes. If not, it is made to a version the reader did not see: another
      file's, if one of the old versions has come to that place, or else one recorded since. */
  lemma NoLostUpdateAlongRuns(s: State, script: Script, p: Path, m: Mutation, base: nat, e: Env)
    requires Recorded(s.db) && WellFormed(s.disk) && Proper(script) && NamedAll(script)
    requires 1 <= base <= |History(s.db, p)|
    requires p != "" && !Reserved(p) && Consistent(Run(s, script)) && Live(Run(s, script).db, p)
    requires Mutate(Run(s, script), p, m, base, e).1.Accepted?
    ensures base == |History(Run(s, script).db, p)|
    ensures Destination(s, script, p) == p ==> ChangesOrKeeps(Run(s, script), p, m, base, e, ContentAt(s.db, p, base))
    ensures forall k :: k in s.db.version && Place(s, script, k) == Key(p, base) ==>
      && (k.path == p <==> Destination(s, script, p) == p)
      && 1 <= base <= |History(s.db, k.path)|
      && ChangesOrKeeps(Run(s, script), p, m, base, e, ContentAt(s.db, k.path, base))
  {
    var s1 := Run(s, script);
    ResolvedVersion(s1, p);
    LiveFile(s1, p);
    BasedWriteContinuesItsBase(s1, p, m, base, e);
    SameVersionIff(s, script, p, base);
    forall k | k in s.db.version && Place(s, script, k) == Key(p, base)
      ensures k.path == p <==> Destination(s, script, p) == p
      ensures 1 <= base <= |History(s.db, k.path)|
      ensures ChangesOrKeeps(s1, p, m, base, e, ContentAt(s.db, k.path, base))
    {
      SameVersionIff(s, script, k.path, base);
    }
  }

  /** The accepted write found the given bytes as version base, and made its change of them the
      next version, or found nothing to change in them. */
  ghost predicate ChangesOrKeeps(s: State, p: Path, m: Mutation, base: nat, e: Env, seen: Data)
    requires Recorded(s.db) && 1 <= base <= |History(s.db, p)|
  {
    var (s', r) := Mutate(s, p, m, base, e);
    && r.Accepted? && !Malformed(m) && ContentAt(s.db, p, base) == seen
    && ((r.version == base && s' == s)
        || (r.version == base + 1 && Recorded(s'.db) && |History(s'.db, p)| == base + 1
            && ContentAt(s'.db, p, base + 1) == Applied(m, seen)))
  }

  // ---------- a run that loses an update ----------

  const LATEST: Data := [3]

  function At(now: int): Env
  {
    Environment(Clean, true).(now := now)
  }

  lemma AtIsGood(now: int)
    ensures ValidEnv(At(now)) && Undisturbed(At(now).tx, MAX_ATTEMPTS) && Lands(Put([]), At(now))
  {
    Outcomes(true);
  }

  /** The file a client has read goes away and another one takes its path. */
  function Swap(data: Data, now: int): Script
  {
    [(Carry("a", "b"), At(now)), (Change("a", Put(data), 0), At(now))]
  }

  lemma MovedOnDisk()
    ensures var d := Lone("a", OLD).disk;
      RenameNode(d, "a", "b").1 && "a" !in RenameNode(d, "a", "b").0
  {
    var d := Lone("a", OLD).disk;
    PlainName("a");
    PlainName("b");
    LoneIsConsistent("a", OLD);
    assert d + (map a | a in Ancestors("b") && a !in d :: Dir) == d;
    assert RenameNode(d, "a", "b").1;
    RenamedNode(d, "a", "b");
    ShiftLeavesRoom(d, "a", "b", RenameNode(d, "a", "b").0);
  }

  lemma NoneLeftBehind(t: Tables, from: Path, to: Path)
    requires t.head.Keys == t.meta.Keys == {from} && from != to && RenameTx(t, from, to).Some?
    ensures from !in RenameTx(t, from, to).value.head && from !in RenameTx(t, from, to).value.meta
  {
    PickedRows(from, from);
    var image := PathImage(from, to);
    MovedKeys(t, image);
    forall k | k in Images({from}, image) ensures k == to {
      var r := Source({from}, image, k);
    }
  }

  lemma LoneMoves()
    ensures var t := Lone("a", OLD).db;
      Recorded(t) && NoTwins(t, "a") && RenameTx(t, "a", "b").Some?
  {
    var t := Lone("a", OLD).db;
    PlainName("a");
    LoneIsConsistent("a", OLD);
    assert NoTwins(t, "a");
    RenameRefusal(t, "a", "b");
  }

  lemma LoneRows(data: Data)
    ensures Lone("a", data).db.head.Keys == Lone("a", data).db.meta.Keys == {"a"}
  { }

  lemma MovedInTables()
    ensures var t := Lone("a", OLD).db;
      NoTwins(t, "a") && RenameTx(t, "a", "b").Some?
      && "a" !in RenameTx(t, "a", "b").value.head && "a" !in RenameTx(t, "a", "b").value.meta
  {
    var t := Lone("a", OLD).db;
    LoneMoves();
    LoneRows(OLD);
    NoneLeftBehind(t, "a", "b");
  }

  lemma StillConsistent(s: State, e: Env, now: int)
    requires s == Lone("a", OLD) && e == At(now)
    ensures Consistent(Move(s, "a", "b", e).0)
  {
    PlainName("a");
    PlainName("b");
    LoneIsConsistent("a", OLD);
    AtIsGood(now);
    MovedInTables();
    OrdinaryRequestsAreHarmless(s, Carry("a", "b"), e);
    MoveAgreement(s, "a", "b", e);
  }

  lemma RenamedAway(now: int)
    ensures var s1 := Move(Lone("a", OLD), "a", "b", At(now)).0;
      && Move(Lone("a", OLD), "a", "b", At(now)).1.Accepted?
      && Consistent(s1) && "a" !in s1.db.head && "a" !in s1.db.meta && "a" !in s1.disk
  {
    var s, e := Lone("a", OLD), At(now);
    PlainName("a");
    PlainName("b");
    LoneIsConsistent("a", OLD);
    AtIsGood(now);
    MovedOnDisk();
    MovedInTables();
    MoveCommits(s, "a", "b", e);
    StillConsistent(s, e, now);
  }

  lemma WrittenAnew(s1: State, data: Data, now: int)
    requires Consistent(s1) && "a" !in s1.db.head && "a" !in s1.db.meta && "a" !in s1.disk && data != []
    ensures var (s2, r) := Mutate(s1, "a", Put(data), 0, At(now));
      && r == Accepted(1, None) && Consistent(s2) && Live(s2.db, "a")
      && History(s2.db, "a") == [Record(now, Sha256(data), |data|, Created)] && ContentAt(s2.db, "a", 1) == data
  {
    var e := At(now);
    PlainName("a");
    AtIsGood(now);
    ResolvedVersion(s1, "a");
    assert MakeDirs(s1.disk, Ancestors("a")).Some?;
    MutateOutcome(s1, "a", Put(data), 0, e);
    ChangeAgreement(s1, "a", Put(data), 0, e);
    SaveCommits(s1, "a", Put(data), ResolveHead(s1, "a").present, e.wroteAt, e.now, e.tx);
    var s2 := Mutate(s1, "a", Put(data), 0, e).0;
    assert RecordOk(s2.db, Key("a", 1));
  }

  lemma OverwrittenUnseen(s2: State)
    requires Consistent(s2) && Live(s2.db, "a") && |History(s2.db, "a")| == 1 && ContentAt(s2.db, "a", 1) == NEW
    ensures Mutate(s2, "a", Put(LATEST), 1, Environment(Clean, true)).1 == Accepted(2, None)
  {
    var e := Environment(Clean, true);
    PlainName("a");
    Outcomes(true);
    ResolvedVersion(s2, "a");
    LiveFile(s2, "a");
    CurrentBaseIsAccepted(s2, "a", Put(LATEST), 1, e);
    PutsReportNoSize(s2, "a", LATEST, 1, e);
  }

  lemma PutsReportNoSize(s: State, p: Path, data: Data, base: nat, e: Env)
    ensures var r := Mutate(s, p, Put(data), base, e).1; r.Accepted? ==> r.size == None
  { }

  lemma TwoSteps(s: State, a: (Request, Env), b: (Request, Env), p: Path)
    ensures var s1 := Handle(s, a.0, a.1).0;
      && Run(s, [a, b]) == Handle(s1, b.0, b.1).0
      && Destination(s, [a, b], p) == Landing(s1, b.0, b.1, Landing(s, a.0, a.1, p))
  {
    var s1 := Handle(s, a.0, a.1).0;
    var s2 := Handle(s1, b.0, b.1).0;
    var none: Script := [];
    assert [a, b][1..] == [b] && [b][1..] == none;
    assert Run(s2, none) == s2;
    assert Run(s1, [b]) == s2;
    var p1 := Landing(s, a.0, a.1, p);
    assert Destination(s2, none, Landing(s1, b.0, b.1, p1)) == Landing(s1, b.0, b.1, p1);
    assert Destination(s1, [b], p1) == Landing(s1, b.0, b.1, p1);
  }

  lemma OldContent()
    ensures var s := Lone("a", OLD);
      Consistent(s) && ContentAt(s.db, "a", 1) == OLD
      && History(s.db, "a") == [Record(0, Sha256(OLD), |OLD|, Created)]
  {
    PlainName("a");
    LoneIsConsistent("a", OLD);
    assert History(Lone("a", OLD).db, "a")[0] == Record(0, Sha256(OLD), |OLD|, Created);
  }

  lemma SwapRuns(s: State, data: Data, now: int)
    requires Move(s, "a", "b", At(now)).1.Accepted?
    ensures Run(s, Swap(data, now)) == Mutate(Move(s, "a", "b", At(now)).0, "a", Put(data), 0, At(now)).0
    ensures Destination(s, Swap(data, now), "a") == "b"
  {
    var first, second := (Carry("a", "b"), At(now)), (Change("a", Put(data), 0), At(now));
    TwoSteps(s, first, second, "a");
    LandsAtB(s, At(now));
    assert Landing(Handle(s, first.0, first.1).0, second.0, second.1, "b") == "b";
  }

  lemma LandsAtB(s: State, e: Env)
    requires Move(s, "a", "b", e).1.Accepted?
    ensures Landing(s, Carry("a", "b"), e, "a") == "b"
  {
    PickedRows("a", "a");
  }

  /** A client reads version 1 at a; the file is renamed and another one created at a, whose
      version is 1 again; the client's write with base 1 is accepted as version 2 and replaces
      bytes it never saw. */
  lemma RenameAndRecreateLosesAnUpdate()
    ensures var s := Lone("a", OLD);
      var s2 := Run(s, Swap(NEW, 1));
      var (s3, r) := Mutate(s2, "a", Put(LATEST), 1, Environment(Clean, true));
      && Consistent(s) && |History(s.db, "a")| == 1 && ContentAt(s.db, "a", 1) == OLD
      && Consistent(s2) && |History(s2.db, "a")| == 1 && ContentAt(s2.db, "a", 1) == NEW
      && r == Accepted(2, None)
      && Destination(s, Swap(NEW, 1), "a") == "b"
  {
    var s := Lone("a", OLD);
    OldContent();
    RenamedAway(1);
    WrittenAnew(Move(s, "a", "b", At(1)).0, NEW, 1);
    SwapRuns(s, NEW, 1);
    OverwrittenUnseen(Run(s, Swap(NEW, 1)));
  }

  // ---------- when the record itself tells ----------

  /** No two versions were recorded at the same time, and none after the clock. */
  ghost predicate Stamped(t: Tables, clock: int)
  {
    && (forall k :: k in t.version ==> t.version[k].mtime <= clock)
    && (forall j, k :: j in t.version && k in t.version && t.version[j].mtime == t.version[k].mtime ==> j == k)
  }

  lemma OldOrNew(t: Tables, p: Path, rec: Record, data: Option<Data>, t': Tables, k: Key)
    requires Dense(t) && Dense(t') && Extended(t, p, rec, data, t') && k in t'.version
    ensures if k == Key(p, |History(t, p)| + 1) then t'.version[k] == rec
            else k in t.version && t'.version[k] == t.version[k]
  {
    assert t'.version[k] == History(t', k.path)[k.version - 1];
    if k.path != p { assert SameFile(t, k.path, t', k.path); }
    if k != Key(p, |History(t, p)| + 1) {
      assert k == Key(k.path, k.version);
      assert History(t', k.path)[k.version - 1] == History(t, k.path)[k.version - 1];
    }
  }

  lemma ExtendedStamps(t: Tables, p: Path, rec: Record, data: Option<Data>, t': Tables, clock: int)
    requires Dense(t) && Dense(t') && Extended(t, p, rec, data, t')
    requires Stamped(t, clock) && clock < rec.mtime
    ensures Stamped(t', rec.mtime)
  {
    forall k | k in t'.version
      ensures if k == Key(p, |History(t, p)| + 1) then t'.version[k] == rec
              else k in t.version && t'.version[k] == t.version[k]
    {
      OldOrNew(t, p, rec, data, t', k);
    }
  }

  lemma MovedStamps(t: Tables, image: Path -> Path, clock: int)
    requires MoveTables(t, image).Some? && Stamped(t, clock)
    ensures Stamped(MoveTables(t, image).value, clock)
  {
    var ki := ByPath(image);
    var t' := MoveTables(t, image).value;
    forall k | k in t'.version ensures exists r :: r in t.version && ki(r) == k && t'.version[k] == t.version[r] {
      var r :| r in t.version && ki(r) == k;
    }
  }

  lemma ChangeKeepsStamps(s: State, p: Path, m: Mutation, base: nat, e: Env, clock: int)
    requires Recorded(s.db) && WellFormed(s.disk) && p != ""
    requires Stamped(s.db, clock) && clock < e.now
    ensures Recorded(Mutate(s, p, m, base, e).0.db) && Stamped(Mutate(s, p, m, base, e).0.db, e.now)
  {
    MutateOutcome(s, p, m, base, e);
    var s' := Mutate(s, p, m, base, e).0;
    if s'.db != s.db {
      var full := Applied(m, BytesAt(s.disk, p));
      ExtendedStamps(s.db, p,
        Record(e.now, Sha256(full), |full|, if ResolveHead(s, p).present then Modified else Created),
        if m.Put? && full == [] then None else Some(full), s'.db, clock);
    }
  }

  lemma EraseKeepsStamps(s: State, p: Path, e: Env, clock: int)
    requires Recorded(s.db) && Stamped(s.db, clock) && clock < e.now
    ensures Recorded(Delete(s, p, e).0.db) && Stamped(Delete(s, p, e).0.db, e.now)
  {
    DeleteOutcome(s, p, e);
    if Delete(s, p, e).1.Accepted? {
      var s' := Delete(s, p, e).0;
      var size :| Extended(s.db, p, Record(e.now, NoDigest, size, Deleted), None, s'.db);
      ExtendedStamps(s.db, p, Record(e.now, NoDigest, size, Deleted), None, s'.db, clock);
    }
  }

  lemma MoveKeepsStamps(s: State, from: Path, to: Path, e: Env, clock: int)
    requires Recorded(s.db) && Stamped(s.db, clock) && clock < e.now
    ensures Recorded(Move(s, from, to, e).0.db) && Stamped(Move(s, from, to, e).0.db, e.now)
  {
    if Move(s, from, to, e).0.db != s.db {
      AcceptedMove(s, from, to, e);
      MoveStaysRecorded(s.db, PathImage(from, to));
      MovedStamps(s.db, PathImage(from, to), clock);
    }
  }

  lemma NewDirKeepsStamps(s: State, p: Path, e: Env, clock: int)
    requires Recorded(s.db) && Stamped(s.db, clock) && clock < e.now
    ensures Recorded(MakeDir(s, p, e).0.db) && Stamped(MakeDir(s, p, e).0.db, e.now)
  {
    DirRowKeepsRecorded(s.db, p);
  }

  lemma StepKeepsStamps(s: State, r: Request, e: Env, clock: int)
    requires Recorded(s.db) && WellFormed(s.disk) && Named(r)
    requires Stamped(s.db, clock) && clock < e.now
    ensures Recorded(Handle(s, r, e).0.db) && Stamped(Handle(s, r, e).0.db, e.now)
  {
    match r
    case Change(p, m, base) => ChangeKeepsStamps(s, p, m, base, e, clock);
    case Erase(p) => EraseKeepsStamps(s, p, e, clock);
    case NewDir(p) => NewDirKeepsStamps(s, p, e, clock);
    case Carry(from, to) => MoveKeepsStamps(s, from, to, e, clock);
    case Tidy(_) =>
  }

  /** The recorded times of the requests are later and later. */
  predicate Ordered(clock: int, script: Script)
    decreases |script|
  {
    script == [] || (clock < script[0].1.now && Ordered(script[0].1.now, script[1..]))
  }

  function LastRecord(clock: int, script: Script): int
    decreases |script|
  {
    if script == [] then clock else LastRecord(script[0].1.now, script[1..])
  }

  lemma {:induction false} RunKeepsStamps(s: State, script: Script, clock: int)
    requires Recorded(s.db) && WellFormed(s.disk) && Proper(script) && NamedAll(script)
    requires Stamped(s.db, clock) && Ordered(clock, script)
    ensures Stamped(Run(s, script).db, LastRecord(clock, script))
    decreases |script|
  {
    if script != [] {
      var (r, e) := script[0];
      assert script[0] in script;
      StepKeepsStamps(s, r, e, clock);
      StepKeepsDisk(s, r, e);
      RunKeepsStamps(Handle(s, r, e).0, script[1..], e.now);
    }
  }

  /** If no two versions are recorded in one second, the record found at a path and a number
      tells: it is the old one if and only if the file is there. */
  lemma RecordTellsIff(s: State, script: Script, p: Path, v: nat, clock: int)
    requires Recorded(s.db) && WellFormed(s.disk) && Proper(script) && NamedAll(script)
    requires Stamped(s.db, clock) && Ordered(clock, script)
    requires 1 <= v <= |History(s.db, p)|
    ensures Recorded(Run(s, script).db)
    ensures var t := Run(s, script).db;
      (v <= |History(t, p)| && History(t, p)[v - 1] == History(s.db, p)[v - 1]) <==> Destination(s, script, p) == p
  {
    SameVersionIff(s, script, p, v);
    RunKeepsStamps(s, script, clock);
    var t, q := Run(s, script).db, Destination(s, script, p);
    assert Key(q, v) in t.version && t.version[Key(q, v)] == History(t, q)[v - 1];
    if v <= |History(t, p)| { assert Key(p, v) in t.version && t.version[Key(p, v)] == History(t, p)[v - 1]; }
  }

  /** Within one second it does not tell: the same swap with the same bytes leaves an equal record
      although the file is elsewhere. */
  lemma SameSecondHidesTheSwap()
    ensures var s := Lone("a", OLD);
      var t := Run(s, Swap(OLD, 0)).db;
      && Recorded(s.db) && Recorded(t) && History(t, "a") == History(s.db, "a")
      && Destination(s, Swap(OLD, 0), "a") == "b"
  {
    var s := Lone("a", OLD);
    OldContent();
    RenamedAway(0);
    WrittenAnew(Move(s, "a", "b", At(0)).0, OLD, 0);
    SwapRuns(s, OLD, 0);
  }
}
