/** The requests that bring disk and tables apart, each with its exact condition and an input
    at which it happens. */
module Failures {
  import opened Wrappers
  import opened Bytes
  import opened Paths
  import opened Like
  import opened Tables
  import opened Disk
  import opened ConflictCopies
  import opened Handlers
  import opened Store
  import opened Agreement

  /** A change whose bytes are not read back or not recorded leaves the disk ahead of the
      tables, exactly if it altered the bytes of a live file. */
  lemma FailedCommit(s: State, p: Path, m: Mutation, base: nat, e: Env)
    requires Consistent(s) && ValidEnv(e) && p != "" && !Reserved(p)
    requires ReachesDisk(s, p, m, base, e) && !Lands(m, e)
    ensures Mutate(s, p, m, base, e).1 == Failed
    ensures Consistent(Mutate(s, p, m, base, e).0) <==>
      (Live(s.db, p) ==> Applied(m, BytesAt(s.disk, p)) == BytesAt(s.disk, p))
  {
    ChangeAgreement(s, p, m, base, e);
    SaveCommits(s, p, m, ResolveHead(s, p).present, e.wroteAt, e.now, e.tx);
  }

  /** A delete that is not recorded leaves the disk ahead, exactly if the path has a meta row, a
      directory's included. */
  lemma FailedErase(s: State, p: Path, e: Env)
    requires Consistent(s) && !Reserved(p)
    requires e.diskOk && RemoveNode(s.disk, p).Some? && !Undisturbed(e.tx, MAX_ATTEMPTS)
    ensures Delete(s, p, e).1 == Failed
    ensures Consistent(Delete(s, p, e).0) <==> p !in s.db.meta
  {
    EraseAgreement(s, p, e);
  }

  lemma TrackedTargetRefuses(t: Tables, from: Path, to: Path)
    requires Recorded(t) && NoTwins(t, from) && Unnested(from, to)
    requires from in t.head && to in t.head
    ensures RenameTx(t, from, to).None?
  {
    RelocatedLiesInTarget(from, to, from);
    assert AtOrUnder(from, from) && Relocate(from, to, from) == to;
    RenameRefusal(t, from, to);
  }

  /** A tracked file renamed onto a live one: the disk replaces the target, then the histories
      collide and the tables refuse, and moving back cannot restore the replaced bytes. */
  lemma OverwritingMove(s: State, from: Path, to: Path, e: Env)
    requires Consistent(s) && from != "" && to != "" && from != to && !Reserved(to)
    requires from in s.db.head && NoTwins(s.db, from) && Live(s.db, to)
    requires e.diskOk && e.revertOk && RenameNode(s.disk, from, to).1
    ensures Move(s, from, to, e).1 == Failed && Move(s, from, to, e).0.db == s.db
    ensures to !in Move(s, from, to, e).0.disk
    ensures !Consistent(Move(s, from, to, e).0)
  {
    assert Unnested(from, to) by { RenamedNode(s.disk, from, to); }
    assert to in s.db.head by { LiveFile(s, to); }
    TrackedTargetRefuses(s.db, from, to);
    RefusedMove(s, from, to, e);
    MoveAgreement(s, from, to, e);
  }

  /** A rename that the tables refuse is taken back, but the replaced target does not return. */
  lemma RefusedMove(s: State, from: Path, to: Path, e: Env)
    requires WellFormed(s.disk) && from != "" && to != "" && from != to
    requires e.diskOk && e.revertOk && RenameNode(s.disk, from, to).1 && RenameTx(s.db, from, to).None?
    ensures Move(s, from, to, e).1 == Failed && Move(s, from, to, e).0.db == s.db
    ensures to !in Move(s, from, to, e).0.disk
  {
    RevertedNode(s.disk, from, to);
  }

  lemma OverwrittenRowFits(s: State, from: Path, to: Path)
    requires Consistent(s) && from != "" && to != "" && from != to && !Reserved(to)
    requires from !in s.db.meta && NoTwins(s.db, from) && Live(s.db, to) && RenameNode(s.disk, from, to).1
    ensures RowFitsMove(s, from, to, to) <==> BytesAt(s.disk, from) == BytesAt(s.disk, to)
  {
    RenamedNode(s.disk, from, to);
    assert Shows(s.disk, to, s.db.meta[to]);
    assert !CaseTwin(from, to);
  }

  /** An untracked file renamed onto a live one: the tables have nothing to move and do not
      refuse; the request is accepted, and the live file's bytes are the source's. */
  lemma OverwritingByUntracked(s: State, from: Path, to: Path, e: Env)
    requires Consistent(s) && from != "" && to != "" && from != to && !Reserved(to)
    requires from !in s.db.meta && NoTwins(s.db, from) && Live(s.db, to)
    requires e.diskOk && RenameNode(s.disk, from, to).1
    requires Undisturbed(e.tx, MAX_ATTEMPTS) && RenameTx(s.db, from, to).Some?
    ensures Move(s, from, to, e).1.Accepted?
    ensures Consistent(Move(s, from, to, e).0) <==> BytesAt(s.disk, from) == BytesAt(s.disk, to)
  {
    RenamedNode(s.disk, from, to);
    MoveCommits(s, from, to, e);
    MoveAgreement(s, from, to, e);
    OverwrittenRowFits(s, from, to);
    forall p | p in s.db.meta && p != to ensures RowFitsMove(s, from, to, p) {
      assert !CaseTwin(from, p) && p != from;
    }
  }

  /** A rename that the tables refuse and the disk does not take back strands the tree at its
      target, harmfully if any ordinary row names a path of it. */
  lemma StrandedMove(s: State, from: Path, to: Path, e: Env, p: Path)
    requires Consistent(s) && from != "" && to != "" && from != to
    requires e.diskOk && !e.revertOk && RenameNode(s.disk, from, to).1
    requires Transact(s.db, Rename(from, to), e.tx).None?
    requires p in s.db.meta && AtOrUnder(from, p) && !Reserved(p)
    ensures Move(s, from, to, e).1 == Failed && !Consistent(Move(s, from, to, e).0)
  {
    MoveAgreement(s, from, to, e);
  }

  /** A committed rename takes the row of a case twin to a place where the disk has no such
      node. */
  lemma TwinLosesItsNode(s: State, from: Path, to: Path, e: Env, p: Path)
    requires Consistent(s) && from != "" && to != "" && from != to
    requires e.diskOk && RenameNode(s.disk, from, to).1 && Transact(s.db, Rename(from, to), e.tx).Some?
    requires p in s.db.meta && CaseTwin(from, p) && !Reserved(p) && |from| <= |p| && from + p[|from|..] !in s.disk
    ensures Move(s, from, to, e).1.Accepted? && !Consistent(Move(s, from, to, e).0)
  {
    MoveAgreement(s, from, to, e);
    assert !RowFitsMove(s, from, to, p);
  }

  /** What suffices in ordinary words: nothing fails after the disk was changed, and a rename
      has no case twins, no live target, and does not give a marked path an ordinary name. */
  lemma OrdinaryRequestsAreHarmless(s: State, r: Request, e: Env)
    requires Consistent(s) && Named(r)
    requires Undisturbed(e.tx, MAX_ATTEMPTS) && e.readOk && e.revertOk
    requires r.Carry? ==>
      NoTwins(s.db, r.from) && (Live(s.db, r.to) ==> Reserved(r.to)) && (Reserved(r.from) ==> Reserved(r.to))
    ensures Harmless(s, r, e)
  {
    if r.Carry? && r.from != r.to && RenameNode(s.disk, r.from, r.to).1 {
      var from, to := r.from, r.to;
      RenamedNode(s.disk, from, to);
      MadeDirs(s.disk, to, Ancestors(to));
      forall p | p in s.db.meta ensures RowFitsMove(s, from, to, p) {
        assert !CaseTwin(from, p);
        if p == from && !Reserved(from) { assert Shows(s.disk, from, s.db.meta[from]); }
      }
    }
  }

  // ---------- inputs ----------

  /** A store with one file of one version. */
  function Lone(p: Path, data: Data): State
  {
    State(Tables(map[p := Meta(false, |data|, 0, Sha256(data), 1)],
                 map[p := 1],
                 map[Key(p, 1) := Record(0, Sha256(data), |data|, Created)],
                 map[Key(p, 1) := data]),
          map[p := File(data, 0)], None)
  }

  lemma LoneIsConsistent(p: Path, data: Data)
    requires p != "" && Ancestors(p) == {}
    ensures Consistent(Lone(p, data))
  {
    var t := Lone(p, data).db;
    assert Dense(t);
    assert RecordOk(t, Key(p, 1));
    assert MetaOk(t, p);
  }

  function Tags(n: nat): seq<string>
  {
    seq(n, _ => "t")
  }

  function Environment(a: Attempt, revertOk: bool): Env
  {
    Env(1, 1, [a, a, a, a, a], true, true, revertOk, Tags(MAX_COPY_ATTEMPTS), 1, CopyPolicy(0, 0, 0), {})
  }

  lemma Outcomes(revertOk: bool)
    ensures ValidEnv(Environment(Clean, revertOk)) && Undisturbed(Environment(Clean, revertOk).tx, MAX_ATTEMPTS)
    ensures ValidEnv(Environment(Broken, revertOk)) && !Undisturbed(Environment(Broken, revertOk).tx, MAX_ATTEMPTS)
  { }

  lemma PlainName(p: Path)
    requires |p| == 1 && p[0] != '/'
    ensures Ancestors(p) == {} && !Reserved(p)
  { }

  const OLD: Data := [1]
  const NEW: Data := [2]

  lemma WriteAhead()
    ensures var s := Lone("a", OLD);
      var (s', r) := Mutate(s, "a", Put(NEW), 0, Environment(Broken, true));
      Consistent(s) && r == Failed && !Consistent(s')
  {
    var s, e := Lone("a", OLD), Environment(Broken, true);
    PlainName("a");
    LoneIsConsistent("a", OLD);
    Outcomes(true);
    LiveFile(s, "a");
    ResolvedVersion(s, "a");
    assert MakeDirs(s.disk, Ancestors("a")).Some?;
    assert ReachesDisk(s, "a", Put(NEW), 0, e);
    FailedCommit(s, "a", Put(NEW), 0, e);
  }

  lemma EraseAhead()
    ensures var s := Lone("a", OLD);
      var (s', r) := Delete(s, "a", Environment(Broken, true));
      Consistent(s) && r == Failed && !Consistent(s')
  {
    PlainName("a");
    LoneIsConsistent("a", OLD);
    Outcomes(true);
    FailedErase(Lone("a", OLD), "a", Environment(Broken, true));
  }

  lemma NothingToMove()
    ensures NoTwins(Lone("a", OLD).db, "b") && RenameTx(Lone("a", OLD).db, "b", "a").Some?
  {
    var t := Lone("a", OLD).db;
    PlainName("a");
    LoneIsConsistent("a", OLD);
    PickedRows("b", "a");
    RenameRefusal(t, "b", "a");
  }

  function TwoFiles(): State
  {
    Lone("a", OLD).(disk := map["a" := File(OLD, 0), "b" := File(NEW, 0)])
  }

  lemma TwoFilesAreConsistent()
    ensures Consistent(TwoFiles())
    ensures RenameNode(TwoFiles().disk, "b", "a").1
  {
    PlainName("a");
    PlainName("b");
    LoneIsConsistent("a", OLD);
    assert MakeDirs(TwoFiles().disk, {}).Some?;
  }

  lemma DifferentBytes()
    ensures Live(TwoFiles().db, "a") && "b" !in TwoFiles().db.meta
    ensures BytesAt(TwoFiles().disk, "b") == NEW && BytesAt(TwoFiles().disk, "a") == OLD && NEW != OLD
  { }

  /** The file at b was put there before the server started. */
  lemma UntrackedOverwrites()
    ensures var (s', r) := Move(TwoFiles(), "b", "a", Environment(Clean, true));
      Consistent(TwoFiles()) && r.Accepted? && !Consistent(s')
  {
    PlainName("a");
    Outcomes(true);
    NothingToMove();
    TwoFilesAreConsistent();
    DifferentBytes();
    OverwritingByUntracked(TwoFiles(), "b", "a", Environment(Clean, true));
  }

  lemma NobodyTakesItBack()
    ensures var s := Lone("a", OLD);
      var (s', r) := Move(s, "a", "b", Environment(Broken, false));
      Consistent(s) && r == Failed && !Consistent(s')
  {
    var s, e := Lone("a", OLD), Environment(Broken, false);
    PlainName("a");
    PlainName("b");
    LoneIsConsistent("a", OLD);
    Outcomes(false);
    assert RenameNode(s.disk, "a", "b").1;
    StrandedMove(s, "a", "b", e, "a");
  }
}
