/** When a request keeps disk and tables in agreement: for every kind of request and every way
    it can fail, an exact condition that can be checked before the call. */
module Agreement {
  import opened Wrappers
  import opened Paths
  import opened Like
  import opened Tables
  import opened Disk
  import opened ConflictCopies
  import opened Handlers
  import opened Store

  ghost predicate Named(r: Request)
  {
    match r
    case Change(p, _, _) => p != ""
    case Erase(p) => p != ""
    case NewDir(p) => p != ""
    case Carry(from, to) => from != "" && to != ""
    case Tidy(_) => true
  }

  /** After the disk was changed nothing fails: the bytes are read back and recorded. */
  predicate Lands(m: Mutation, e: Env)
  {
    (m.Put? || e.readOk) && Undisturbed(e.tx, MAX_ATTEMPTS)
  }

  /** The change gets as far as changing the file on disk. */
  ghost predicate ReachesDisk(s: State, p: Path, m: Mutation, base: nat, e: Env)
  {
    && !Malformed(m) && e.diskOk
    && !Stale(ResolveHead(s, p), base)
    && !NothingToDo(s.disk, p, m, ResolveHead(s, p))
    && MutateFile(s.disk, p, m, e.wroteAt).1
  }

  /** A change is harmless if it lands, or never reaches the disk, or finds no live file there,
      or alters no byte. */
  ghost predicate HarmlessChange(s: State, p: Path, m: Mutation, base: nat, e: Env)
  {
    ReachesDisk(s, p, m, base, e) && !Lands(m, e) ==>
      Reserved(p) || !Live(s.db, p) || Applied(m, BytesAt(s.disk, p)) == BytesAt(s.disk, p)
  }

  /** A delete is harmless if it lands, or cannot remove, or removes what no meta row names. */
  ghost predicate HarmlessErase(s: State, p: Path, e: Env)
  {
    e.diskOk && RemoveNode(s.disk, p).Some? && !Undisturbed(e.tx, MAX_ATTEMPTS) ==>
      Reserved(p) || p !in s.db.meta
  }

  /** Where a committed rename sends a meta row, the disk shows the row: rows of case twins find
      the node that the tree brought there, a target's own row finds the source's bytes, and a
      source that was exempt is as its row says. */
  ghost predicate RowFitsMove(s: State, from: Path, to: Path, p: Path)
    requires p in s.db.meta
  {
    if CaseTwin(from, p) then Reserved(p) || (|p| >= |from| && Shows(s.disk, from + p[|from|..], s.db.meta[p]))
    else (p == to || p == from) ==> Reserved(to) || Shows(s.disk, from, s.db.meta[p])
  }

  ghost predicate HarmlessMove(s: State, from: Path, to: Path, e: Env)
  {
    from != to && e.diskOk && RenameNode(s.disk, from, to).1 ==>
      if Transact(s.db, Rename(from, to), e.tx).Some? then
        forall p :: p in s.db.meta ==> RowFitsMove(s, from, to, p)
      else if e.revertOk then
        to in s.db.meta ==> Reserved(to)
      else
        && (forall p :: p in s.db.meta && AtOrUnder(from, p) ==> Reserved(p))
        && (to in s.db.meta ==> Reserved(to) || Shows(s.disk, from, s.db.meta[to]))
  }

  ghost predicate Harmless(s: State, r: Request, e: Env)
  {
    match r
    case Change(p, m, base) => HarmlessChange(s, p, m, base, e)
    case Erase(p) => HarmlessErase(s, p, e)
    case NewDir(_) => true
    case Carry(from, to) => HarmlessMove(s, from, to, e)
    case Tidy(_) => true
  }

  // ---------- changes ----------

  lemma UnfinishedChange(s: State, p: Path, m: Mutation, now: int)
    requires Consistent(s) && p != "" && !Malformed(m)
    ensures var (d, ok) := MutateFile(s.disk, p, m, now);
      Consistent(s.(disk := d)) <==>
        (ok ==> Reserved(p) || !Live(s.db, p) || Applied(m, BytesAt(s.disk, p)) == BytesAt(s.disk, p))
  {
    MutatedFile(s.disk, p, m, now);
    var (d, ok) := MutateFile(s.disk, p, m, now);
    if p in s.db.meta && !Reserved(p) {
      assert Shows(s.disk, p, s.db.meta[p]);
      if Live(s.db, p) { assert Shows(d, p, s.db.meta[p]) <==> d[p].content == BytesAt(s.disk, p); }
    }
  }

  lemma ChangeAgreement(s: State, p: Path, m: Mutation, base: nat, e: Env)
    requires Consistent(s) && ValidEnv(e) && p != ""
    ensures Consistent(Mutate(s, p, m, base, e).0) <==> HarmlessChange(s, p, m, base, e)
  {
    if !Malformed(m) {
      var head := ResolveHead(s, p);
      if Stale(head, base) {
        ConflictChangesNothing(s, p, m, base, e);
      } else if !NothingToDo(s.disk, p, m, head) && e.diskOk {
        AppliedAgreement(s, p, m, head, e);
      }
    }
  }

  lemma AppliedAgreement(s: State, p: Path, m: Mutation, head: FileHead, e: Env)
    requires Consistent(s) && p != "" && !Malformed(m) && e.diskOk
    ensures Consistent(Apply(s, p, m, head, e).0) <==>
      (MutateFile(s.disk, p, m, e.wroteAt).1 && !Lands(m, e) ==>
        Reserved(p) || !Live(s.db, p) || Applied(m, BytesAt(s.disk, p)) == BytesAt(s.disk, p))
  {
    UnfinishedChange(s, p, m, e.wroteAt);
    if MutateFile(s.disk, p, m, e.wroteAt).1 {
      SaveCommits(s, p, m, head.present, e.wroteAt, e.now, e.tx);
      if Lands(m, e) {
        CommittedAgrees(s, p, m, head.present, e.wroteAt, e.now, Apply(s, p, m, head, e).0);
      }
    }
  }

  /** A live file can be opened for a change. */
  lemma LiveFileOpens(s: State, p: Path, m: Mutation, now: int)
    requires Consistent(s) && Live(s.db, p) && !Reserved(p) && !Malformed(m) && !OutOfRange(m)
    ensures MutateFile(s.disk, p, m, now).1
  {
    assert Shows(s.disk, p, s.db.meta[p]);
    assert forall a :: a in Ancestors(p) ==> s.disk[a].Dir?;
  }

  /** A change to a live file that names no base, or the current version, is accepted unless
      the system fails: as the next version, or as the current one if there is nothing to do. */
  lemma CurrentBaseIsAccepted(s: State, p: Path, m: Mutation, base: nat, e: Env)
    requires Consistent(s) && p != "" && Live(s.db, p) && !Reserved(p) && !Malformed(m) && !OutOfRange(m)
    requires base == 0 || base == |History(s.db, p)|
    requires e.diskOk && Lands(m, e)
    ensures var r := Mutate(s, p, m, base, e).1;
      && r.Accepted?
      && r.version == |History(s.db, p)| + if NothingToDo(s.disk, p, m, ResolveHead(s, p)) then 0 else 1
  {
    var head := ResolveHead(s, p);
    ResolvedVersion(s, p);
    if !NothingToDo(s.disk, p, m, head) {
      LiveFileOpens(s, p, m, e.wroteAt);
      SaveCommits(s, p, m, head.present, e.wroteAt, e.now, e.tx);
      assert Mutate(s, p, m, base, e) == Apply(s, p, m, head, e);
    }
  }

  // ---------- deletes and new directories ----------

  lemma RemovalAppends(t: Tables, p: Path, size: nat, now: int)
    requires Recorded(t)
    ensures var r := Body(t, Remove(p, size, now));
      && r.Some? && Recorded(r.value.0) && r.value.1 == |History(t, p)| + 1
      && Extended(t, p, Record(now, NoDigest, size, Deleted), None, r.value.0)
      && r.value.0.meta == t.meta - {p}
  {
    AppendExtends(t, p, None, Record(now, NoDigest, size, Deleted), None);
  }

  /** Every outcome of a delete. */
  lemma DeleteOutcome(s: State, p: Path, e: Env)
    requires Recorded(s.db)
    ensures var (s', r) := Delete(s, p, e);
      (r.Accepted? ==>
        && Recorded(s'.db)
        && r.version == |History(s.db, p)| + 1
        && RemoveNode(s.disk, p) == Some(s'.disk)
        && s'.db.meta == s.db.meta - {p}
        && exists size :: Extended(s.db, p, Record(e.now, NoDigest, size, Deleted), None, s'.db))
      && (!r.Accepted? ==> s'.db == s.db)
      && (r.Accepted? <==> e.diskOk && RemoveNode(s.disk, p).Some? && Undisturbed(e.tx, MAX_ATTEMPTS))
  {
    RemovalAppends(s.db, p, if p in s.db.meta then s.db.meta[p].size else 0, e.now);
  }

  lemma EraseAgreement(s: State, p: Path, e: Env)
    requires Consistent(s)
    ensures Consistent(Delete(s, p, e).0) <==> HarmlessErase(s, p, e)
  {
    DeleteOutcome(s, p, e);
    if e.diskOk && RemoveNode(s.disk, p).Some? {
      RemovedNode(s.disk, p);
      var d := RemoveNode(s.disk, p).value;
      forall q | q in s.db.meta && q != p && !Reserved(q) ensures Shows(d, q, s.db.meta[q]) {
        assert Shows(s.disk, q, s.db.meta[q]);
      }
    }
  }

  lemma DirRowKeepsRecorded(t: Tables, p: Path)
    requires Recorded(t)
    ensures var t' := t.(meta := t.meta[p := DIR_META]);
      Recorded(t') && forall q :: SameFile(t, q, t', q)
  {
    var t' := t.(meta := t.meta[p := DIR_META]);
    assert Dense(t');
    forall k | k in t'.version ensures RecordOk(t', k) { assert RecordOk(t, k); }
    forall q | q in t'.meta ensures MetaOk(t', q) {
      if q != p { assert MetaOk(t, q); }
    }
    forall q ensures SameFile(t, q, t', q) { assert History(t, q) == History(t', q); }
  }

  /** A new directory never does harm. */
  lemma MakeDirAgreement(s: State, p: Path, e: Env)
    requires Consistent(s) && p != ""
    ensures Consistent(MakeDir(s, p, e).0)
  {
    DirRowKeepsRecorded(s.db, p);
    if MakeDirs(s.disk, Ancestors(p) + {p}).Some? {
      MadeDirs(s.disk, p, Ancestors(p) + {p});
    }
  }

  // ---------- renames ----------

  /** A node comes from where the tree move took it. */
  lemma CameFrom(d0: Tree, from: Path, to: Path, d': Tree, x: Path, q: Path)
    requires Shiftable(d0, from, to) && ShiftOf(d0, from, to, d')
    requires AtOrUnder(from, x) && q == Relocate(from, to, x)
    ensures q in d' <==> x in d0
    ensures q in d' ==> d'[q] == d0[x]
  {
    RelocatedLiesInTarget(from, to, x);
    assert x != to;
    if q in d' {
      var y :| y in d0 && y != to && Relocate(from, to, y) == q;
      if AtOrUnder(from, y) { SameRest(from, to, x, y); }
    }
  }

  lemma SameRest(from: Path, to: Path, x: Path, y: Path)
    requires AtOrUnder(from, x) && AtOrUnder(from, y) && Relocate(from, to, x) == Relocate(from, to, y)
    ensures x == y
  {
    assert (to + x[|from|..])[|to|..] == (to + y[|from|..])[|to|..];
    assert x == x[..|from|] + x[|from|..] && y == y[..|from|] + y[|from|..];
  }

  lemma TwinParts(from: Path, to: Path, p: Path)
    requires CaseTwin(from, p)
    ensures |from| < |p| && Under(from, from + p[|from|..])
    ensures RowImage(from, to, p) == to + p[|from|..] == Relocate(from, to, from + p[|from|..])
    ensures Reserved(RowImage(from, to, p)) <==> Reserved(p)
  {
    PickedRows(from, p);
    var rest := p[|from|..];
    var x := from + rest;
    assert x[..|from|] == from && x[|from|..] == rest;
    assert p == p[..|from|] + rest;
    MarkBelow(p[..|from|], rest);
    MarkBelow(to, rest);
  }

  /** The parents made for the target add nothing to the tree that moves. */
  lemma SameBelow(d: Tree, from: Path, to: Path, x: Path)
    requires WellFormed(d) && MakeDirs(d, Ancestors(to)).Some? && Unnested(from, to) && AtOrUnder(from, x)
    ensures var d0 := MakeDirs(d, Ancestors(to)).value;
      (x in d0 <==> x in d) && (x in d ==> d0[x] == d[x])
  {
    MadeDirs(d, to, Ancestors(to));
    if x in Ancestors(to) { UnderTransitive(from, x, to); }
  }

  /** One meta row of a committed rename. */
  lemma RowAgreement(s: State, from: Path, to: Path, p: Path)
    requires Consistent(s) && from != "" && to != "" && from != to
    requires RenameNode(s.disk, from, to).1 && p in s.db.meta
    requires p == to ==> from !in s.db.meta || CaseTwin(from, p)
    ensures var q := RowImage(from, to, p);
      (Reserved(q) || Shows(RenameNode(s.disk, from, to).0, q, s.db.meta[p])) <==> RowFitsMove(s, from, to, p)
  {
    RenamedNode(s.disk, from, to);
    MadeDirs(s.disk, to, Ancestors(to));
    var d0, d' := MakeDirs(s.disk, Ancestors(to)).value, RenameNode(s.disk, from, to).0;
    var q := RowImage(from, to, p);
    if CaseTwin(from, p) {
      TwinParts(from, to, p);
      var x := from + p[|from|..];
      CameFrom(d0, from, to, d', x, q);
      SameBelow(s.disk, from, to, x);
    } else {
      UpdateFollowsTree(from, to, p);
      if AtOrUnder(from, p) {
        RelocatedLiesInTarget(from, to, p);
        CameFrom(d0, from, to, d', p, q);
        SameBelow(s.disk, from, to, p);
        if p != from { RelocateReserves(from, to, p); }
      } else if p == to {
        RelocatedLiesInTarget(from, to, from);
        CameFrom(d0, from, to, d', from, to);
        SameBelow(s.disk, from, to, from);
      } else if !Reserved(p) {
        assert Shows(s.disk, p, s.db.meta[p]) && Relocate(from, to, p) == p;
        assert d'[p] == d0[p] == s.disk[p];
      }
    }
  }

  lemma CommittedMoveAgreement(s: State, from: Path, to: Path, t': Tables)
    requires Consistent(s) && from != "" && to != "" && from != to
    requires RenameNode(s.disk, from, to).1 && RenameTx(s.db, from, to) == Some(t')
    ensures var d' := RenameNode(s.disk, from, to).0;
      Consistent(s.(db := t', disk := d')) <==> forall p :: p in s.db.meta ==> RowFitsMove(s, from, to, p)
  {
    var image := PathImage(from, to);
    var d' := RenameNode(s.disk, from, to).0;
    MoveStaysRecorded(s.db, image);
    RenamedNode(s.disk, from, to);
    forall p | p in s.db.meta
      ensures image(p) in t'.meta && t'.meta[image(p)] == s.db.meta[p]
      ensures (Reserved(image(p)) || Shows(d', image(p), t'.meta[image(p)])) <==> RowFitsMove(s, from, to, p)
    {
      if p == to && from in s.db.meta && !CaseTwin(from, p) { TargetCollides(s.db, from, to); }
      RowAgreement(s, from, to, p);
    }
    forall q | q in t'.meta ensures exists p :: p in s.db.meta && image(p) == q {
      var p :| p in s.db.meta && image(p) == q;
    }
    if forall p :: p in s.db.meta ==> RowFitsMove(s, from, to, p) {
      forall q | q in t'.meta && !Reserved(q) ensures Shows(d', q, t'.meta[q]) {
        var p :| p in s.db.meta && image(p) == q;
      }
    } else {
      var p :| p in s.db.meta && !RowFitsMove(s, from, to, p);
      assert image(p) in t'.meta && !Reserved(image(p)) && !Shows(d', image(p), t'.meta[image(p)]);
    }
  }

  lemma TargetCollides(t: Tables, from: Path, to: Path)
    requires from in t.meta && to in t.meta && from != to && !CaseTwin(from, to) && Unnested(from, to)
    ensures RenameTx(t, from, to).None?
  {
    var image := PathImage(from, to);
    PickedRows(from, from);
    assert image(from) == to && image(to) == to;
  }

  lemma RevertedMoveAgreement(s: State, from: Path, to: Path)
    requires Consistent(s) && from != "" && to != "" && from != to
    requires RenameNode(s.disk, from, to).1
    ensures var d2 := RenameNode(RenameNode(s.disk, from, to).0, to, from).0;
      Consistent(s.(disk := d2)) <==> (to in s.db.meta ==> Reserved(to))
  {
    RevertedNode(s.disk, from, to);
    var d2 := RenameNode(RenameNode(s.disk, from, to).0, to, from).0;
    forall p | p in s.db.meta && !Reserved(p) && p != to ensures Shows(d2, p, s.db.meta[p]) {
      assert Shows(s.disk, p, s.db.meta[p]);
    }
  }

  lemma StrandedMoveAgreement(s: State, from: Path, to: Path)
    requires Consistent(s) && from != "" && to != "" && from != to
    requires RenameNode(s.disk, from, to).1
    ensures Consistent(s.(disk := RenameNode(s.disk, from, to).0)) <==>
      (forall p :: p in s.db.meta && AtOrUnder(from, p) ==> Reserved(p))
      && (to in s.db.meta ==> Reserved(to) || Shows(s.disk, from, s.db.meta[to]))
  {
    RenamedNode(s.disk, from, to);
    MadeDirs(s.disk, to, Ancestors(to));
    var d0, d' := MakeDirs(s.disk, Ancestors(to)).value, RenameNode(s.disk, from, to).0;
    ShiftLeavesRoom(d0, from, to, d');
    RelocatedLiesInTarget(from, to, from);
    CameFrom(d0, from, to, d', from, to);
    SameBelow(s.disk, from, to, from);
    forall p | p in s.db.meta && !Reserved(p) && p != to && !AtOrUnder(from, p) ensures Shows(d', p, s.db.meta[p]) {
      assert Shows(s.disk, p, s.db.meta[p]) && Relocate(from, to, p) == p;
      assert d'[p] == d0[p] == s.disk[p];
    }
    forall p | p in s.db.meta && AtOrUnder(from, p) ensures !Shows(d', p, s.db.meta[p]) { }
  }

  /** The transaction of a rename, in short. */
  lemma RenameTransaction(t: Tables, from: Path, to: Path, tx: seq<Attempt>)
    requires from != to
    ensures Transact(t, Rename(from, to), tx) ==
      if Undisturbed(tx, MAX_ATTEMPTS) && RenameTx(t, from, to).Some?
      then Some((RenameTx(t, from, to).value, 0)) else None
  { }

  /** What a rename does that neither disk nor tables refuse. */
  lemma MoveCommits(s: State, from: Path, to: Path, e: Env)
    requires from != to && e.diskOk && RenameNode(s.disk, from, to).1
    requires Undisturbed(e.tx, MAX_ATTEMPTS) && RenameTx(s.db, from, to).Some?
    ensures Move(s, from, to, e)
      == (s.(db := RenameTx(s.db, from, to).value, disk := RenameNode(s.disk, from, to).0), Accepted(0, None))
  {
    RenameTransaction(s.db, from, to, e.tx);
  }

  lemma RefusedByDisk(s: State, from: Path, to: Path)
    requires Consistent(s) && from != "" && to != "" && !RenameNode(s.disk, from, to).1
    ensures Consistent(s.(disk := RenameNode(s.disk, from, to).0))
  {
    if MakeDirs(s.disk, Ancestors(to)).Some? { MadeDirs(s.disk, to, Ancestors(to)); }
  }

  lemma MoveAgreement(s: State, from: Path, to: Path, e: Env)
    requires Consistent(s) && from != "" && to != ""
    ensures Consistent(Move(s, from, to, e).0) <==> HarmlessMove(s, from, to, e)
  {
    if from != to && e.diskOk {
      if !RenameNode(s.disk, from, to).1 {
        RefusedByDisk(s, from, to);
      } else if Transact(s.db, Rename(from, to), e.tx).Some? {
        CommittedMoveAgreement(s, from, to, RenameTx(s.db, from, to).value);
      } else if e.revertOk {
        RevertedMoveAgreement(s, from, to);
      } else {
        StrandedMoveAgreement(s, from, to);
      }
    }
  }

  // ---------- all requests ----------

  /** The theorem: a request keeps disk and tables in agreement if and only if it is harmless. */
  lemma StepConsistentIff(s: State, r: Request, e: Env)
    requires Consistent(s) && Named(r) && ValidEnv(e)
    ensures Consistent(Handle(s, r, e).0) <==> Harmless(s, r, e)
  {
    match r
    case Change(p, m, base) => ChangeAgreement(s, p, m, base, e);
    case Erase(p) => EraseAgreement(s, p, e);
    case NewDir(p) => MakeDirAgreement(s, p, e);
    case Carry(from, to) => MoveAgreement(s, from, to, e);
    case Tidy(gone) => PrunedTree(s.disk, gone);
  }
}
