/** The on-disk tree under the server's root, each system call as one step. */
module Disk {
  import opened Wrappers
  import opened Bytes
  import opened Paths

  datatype Node = Dir | File(content: Data, mtime: int)

  type Tree = map<Path, Node>

  /** What a directory reports as its size. */
  const DIR_STAT_SIZE: nat := 4096

  /** A change to one file's bytes: replace all, overlay a range, or set the length. */
  datatype Mutation = Put(data: Data) | Splice(offset: int, bytes: Data) | Resize(size: int)

  /** Everything on disk lies in directories. */
  ghost predicate WellFormed(d: Tree)
  {
    forall p, a :: p in d && a in Ancestors(p) ==> a in d && d[a].Dir?
  }

  function StatSize(n: Node): nat
  {
    if n.Dir? then DIR_STAT_SIZE else |n.content|
  }

  function BytesAt(d: Tree, p: Path): Data
  {
    if p in d && d[p].File? then d[p].content else []
  }

  /** MkdirAll for a set of directories; a file in the way stops it. */
  function MakeDirs(d: Tree, dirs: set<Path>): (r: Option<Tree>)
  {
    if exists a :: a in dirs && a in d && d[a].File? then None
    else Some(d + map a | a in dirs && a !in d :: Dir)
  }

  /** The bytes a mutation makes of the bytes it finds. */
  function Applied(m: Mutation, old_: Data): Data
    requires m.Splice? ==> m.offset >= 0
    requires m.Resize? ==> m.size >= 0
  {
    match m
    case Put(data) => data
    case Splice(offset, data) => DiskWriteAt(old_, offset, data)
    case Resize(size) => DiskTruncate(old_, size)
  }

  predicate Malformed(m: Mutation)
  {
    (m.Splice? && m.offset < 0) || (m.Resize? && m.size < 0)
  }

  /** The positioned write whose end no file offset can name. */
  predicate OutOfRange(m: Mutation)
  {
    m.Splice? && m.offset + |m.bytes| > MAX_INT64
  }

  /** Parents are made first, then the file is opened or created, then changed; a write the
      system refuses leaves the file as opened. */
  function MutateFile(d: Tree, p: Path, m: Mutation, now: int): (r: (Tree, bool))
    requires !Malformed(m)
  {
    var parents := MakeDirs(d, Ancestors(p));
    if parents.None? || (p in d && d[p].Dir?) then (d, false)
    else if OutOfRange(m) then (parents.value[p := if p in d then d[p] else File([], now)], false)
    else (parents.value[p := File(Applied(m, BytesAt(d, p)), now)], true)
  }

  /** Remove takes a file or an empty directory. */
  function RemoveNode(d: Tree, p: Path): Option<Tree>
  {
    if p !in d || (exists q :: q in d && Under(p, q)) then None else Some(d - {p})
  }

  /** The tree after everything at from moved to to; a file at to is replaced. */
  function Shifted(d: Tree, from: Path, to: Path): (d': Tree)
  {
    map q | q in (set p | p in d && p != to :: Relocate(from, to, p)) ::
      var source := if AtOrUnder(to, q) then Relocate(to, from, q) else q;
      if source in d then d[source] else Dir
  }

  /** The parents of to are made first; then the rename happens or fails as a whole. */
  function RenameNode(d: Tree, from: Path, to: Path): (r: (Tree, bool))
  {
    var parents := MakeDirs(d, Ancestors(to));
    if parents.None? then (d, false)
    else
      var d1 := parents.value;
      if from !in d1 || Under(from, to) || (to in d1 && (d1[to].Dir? || d1[from].Dir?)) then (d1, false)
      else (Shifted(d1, from, to), true)
  }

  // ---------- facts ----------

  lemma MadeDirs(d: Tree, p: Path, dirs: set<Path>)
    requires WellFormed(d)
    requires dirs == Ancestors(p) || (dirs == Ancestors(p) + {p} && p != "")
    requires MakeDirs(d, dirs).Some?
    ensures var d' := MakeDirs(d, dirs).value;
      WellFormed(d') && d'.Keys == d.Keys + dirs
      && (forall q :: q in d ==> d'[q] == d[q])
      && (forall q :: q in dirs ==> d'[q].Dir?)
  {
    var d' := MakeDirs(d, dirs).value;
    forall q, a | q in d' && a in Ancestors(q) ensures a in d' && d'[a].Dir? {
      if q in dirs {
        if q != p { UnderTransitive(a, q, p); }
        assert a in dirs;
      }
    }
  }

  /** A new file in existing directories. */
  lemma AddedFile(d: Tree, q: Path, file: Node)
    requires WellFormed(d) && q !in d
    requires forall a :: a in Ancestors(q) ==> a in d && d[a].Dir?
    ensures WellFormed(d[q := file])
  {
    var d' := d[q := file];
    forall x, a | x in d' && a in Ancestors(x) ensures a in d' && d'[a].Dir? {
      assert a in d;
    }
  }

  lemma MutatedFile(d: Tree, p: Path, m: Mutation, now: int)
    requires WellFormed(d) && !Malformed(m) && p != ""
    ensures var (d', ok) := MutateFile(d, p, m, now);
      WellFormed(d')
      && (forall q :: q in d && q != p ==> q in d' && d'[q] == d[q])
      && (forall q :: q in d' && q !in d && q != p ==> d'[q].Dir?)
      && (ok ==> p in d' && d'[p] == File(Applied(m, BytesAt(d, p)), now))
      && (!ok && p in d ==> p in d' && d'[p] == d[p])
  {
    var parents := MakeDirs(d, Ancestors(p));
    if parents.Some? && !(p in d && d[p].Dir?) {
      MadeDirs(d, p, Ancestors(p));
      assert p !in Ancestors(p);
      var (d', ok) := MutateFile(d, p, m, now);
      forall q, a | q in d' && a in Ancestors(q) ensures a in d' && d'[a].Dir? {
        if q == p { assert a in parents.value; }
        assert q != p ==> q in parents.value && a in parents.value;
      }
    }
  }

  lemma RemovedNode(d: Tree, p: Path)
    requires WellFormed(d) && RemoveNode(d, p).Some?
    ensures WellFormed(RemoveNode(d, p).value)
  {
    var d' := RemoveNode(d, p).value;
    forall q, a | q in d' && a in Ancestors(q) ensures a in d' && d'[a].Dir? {
      assert q in d && a in d;
    }
  }

  /** The tree at from is now at to and everything else but a replaced file is where it was. */
  ghost predicate ShiftOf(d: Tree, from: Path, to: Path, d': Tree)
  {
    && (forall p :: p in d && p != to ==>
      Relocate(from, to, p) in d' && d'[Relocate(from, to, p)] == d[p])
    && (forall q :: q in d' ==> exists p :: p in d && p != to && Relocate(from, to, p) == q)
  }

  /** The situation in which the system call itself succeeds. */
  ghost predicate Shiftable(d: Tree, from: Path, to: Path)
  {
    && Unnested(from, to) && from != "" && to != ""
    && from in d && !(to in d && d[to].Dir?)
    && (forall p :: p in d ==> !Under(to, p))
    && (forall a :: a in Ancestors(to) ==> a in d && d[a].Dir?)
  }

  lemma ShiftedShift(d: Tree, from: Path, to: Path)
    requires Shiftable(d, from, to)
    ensures ShiftOf(d, from, to, Shifted(d, from, to))
  {
    var d' := Shifted(d, from, to);
    forall p | p in d && p != to
      ensures Relocate(from, to, p) in d' && d'[Relocate(from, to, p)] == d[p]
    {
      RelocateBack(from, to, p);
      if AtOrUnder(from, p) { RelocatedLiesInTarget(from, to, p); }
    }
  }

  lemma DirAbove(d: Tree, p: Path, a: Path)
    requires WellFormed(d) && p in d && a in Ancestors(p)
    ensures a in d && d[a].Dir?
  { }

  lemma StaysInPlace(d: Tree, from: Path, to: Path, d': Tree, p: Path)
    requires ShiftOf(d, from, to, d') && p in d && p != to && Relocate(from, to, p) == p
    ensures p in d' && d'[p] == d[p]
  { }

  lemma UntouchedParent(d: Tree, from: Path, to: Path, d': Tree, p: Path, a: Path)
    requires Shiftable(d, from, to) && ShiftOf(d, from, to, d')
    requires !AtOrUnder(from, p) && a in Ancestors(p)
    requires a in d && d[a].Dir?
    ensures a in d' && d'[a].Dir?
  {
    OutsideStays(from, to, p, a);
    StaysInPlace(d, from, to, d', a);
  }

  lemma DirMoves(d: Tree, from: Path, to: Path, d': Tree, p: Path, x: Path)
    requires WellFormed(d) && ShiftOf(d, from, to, d') && p in d && x in Ancestors(p) && x != to
    ensures Relocate(from, to, x) in d' && d'[Relocate(from, to, x)].Dir?
  {
    assert x in d && d[x].Dir?;
  }

  lemma MovedParentMoves(d: Tree, from: Path, to: Path, d': Tree, p: Path, a: Path)
    requires WellFormed(d) && Shiftable(d, from, to) && ShiftOf(d, from, to, d')
    requires p in d && AtOrUnder(from, p) && AtOrUnder(to, a) && Under(a, Relocate(from, to, p))
    ensures a in d' && d'[a].Dir?
  {
    var x := MovedParentOf(from, to, p, a);
    DirMoves(d, from, to, d', p, x);
  }

  lemma MovedPathsParent(d: Tree, from: Path, to: Path, d': Tree, p: Path, a: Path)
    requires WellFormed(d) && Shiftable(d, from, to) && ShiftOf(d, from, to, d')
    requires p in d && AtOrUnder(from, p) && a in Ancestors(Relocate(from, to, p))
    ensures a in d' && d'[a].Dir?
  {
    var q := Relocate(from, to, p);
    RelocatedLiesInTarget(from, to, p);
    AncestorsAreNested(a, to, q);
    if AtOrUnder(to, a) {
      MovedParentMoves(d, from, to, d', p, a);
    } else {
      UntouchedParent(d, from, to, d', to, a);
    }
  }

  lemma ParentsAfterShift(d: Tree, from: Path, to: Path, d': Tree, q: Path)
    requires WellFormed(d) && Shiftable(d, from, to) && ShiftOf(d, from, to, d') && q in d'
    ensures forall a :: a in Ancestors(q) ==> a in d' && d'[a].Dir?
  {
    var p :| p in d && p != to && Relocate(from, to, p) == q;
    forall a | a in Ancestors(q) ensures a in d' && d'[a].Dir? {
      if AtOrUnder(from, p) {
        MovedPathsParent(d, from, to, d', p, a);
      } else {
        DirAbove(d, p, a);
        UntouchedParent(d, from, to, d', p, a);
      }
    }
  }

  lemma ShiftStaysWellFormed(d: Tree, from: Path, to: Path, d': Tree)
    requires WellFormed(d) && Shiftable(d, from, to) && ShiftOf(d, from, to, d')
    ensures WellFormed(d')
  {
    forall q | q in d' ensures forall a :: a in Ancestors(q) ==> a in d' && d'[a].Dir? {
      ParentsAfterShift(d, from, to, d', q);
    }
  }

  /** A rename the disk accepts finds a movable tree and moves it whole. */
  lemma RenamedNode(d: Tree, from: Path, to: Path)
    requires WellFormed(d) && from != "" && to != "" && from != to
    requires RenameNode(d, from, to).1
    ensures MakeDirs(d, Ancestors(to)).Some?
    ensures Shiftable(MakeDirs(d, Ancestors(to)).value, from, to)
    ensures from in d
    ensures WellFormed(RenameNode(d, from, to).0)
    ensures ShiftOf(MakeDirs(d, Ancestors(to)).value, from, to, RenameNode(d, from, to).0)
  {
    MadeDirs(d, to, Ancestors(to));
    var d1 := MakeDirs(d, Ancestors(to)).value;
    assert from !in Ancestors(to);
    forall p | p in d1 ensures !Under(to, p) {
      assert Under(to, p) ==> to in Ancestors(p);
    }
    ShiftedShift(d1, from, to);
    ShiftStaysWellFormed(d1, from, to, Shifted(d1, from, to));
  }

  lemma NothingLeft(d: Tree, from: Path, to: Path, d': Tree, q: Path)
    requires Shiftable(d, from, to) && ShiftOf(d, from, to, d') && q in d'
    ensures !AtOrUnder(from, q)
  {
    var p :| p in d && p != to && Relocate(from, to, p) == q;
    if AtOrUnder(from, p) {
      RelocatedLiesInTarget(from, to, p);
      if AtOrUnder(from, q) { AncestorsAreNested(from, to, q); }
    }
  }

  lemma OldParentsStay(d: Tree, from: Path, to: Path, d': Tree, a: Path)
    requires Shiftable(d, from, to) && ShiftOf(d, from, to, d') && a in Ancestors(from)
    requires a in d && d[a].Dir?
    ensures a in d' && d'[a].Dir?
  {
    ParentStays(from, to, a);
    StaysInPlace(d, from, to, d', a);
  }

  /** After the move nothing is left at its old place, so it can be undone. */
  lemma ShiftLeavesRoom(d: Tree, from: Path, to: Path, d': Tree)
    requires WellFormed(d) && Shiftable(d, from, to) && ShiftOf(d, from, to, d')
    ensures forall q :: q in d' ==> !AtOrUnder(from, q)
    ensures MakeDirs(d', Ancestors(from)) == Some(d')
    ensures Shiftable(d', to, from)
  {
    forall q | q in d' ensures !AtOrUnder(from, q) {
      NothingLeft(d, from, to, d', q);
    }
    forall a | a in Ancestors(from) ensures a in d' && d'[a].Dir? {
      DirAbove(d, from, a);
      OldParentsStay(d, from, to, d', a);
    }
    assert Relocate(from, to, from) == to by { RelocatedLiesInTarget(from, to, from); }
    assert MakeDirs(d', Ancestors(from)).value == d';
  }

  /** Undoing an accepted rename works and restores every node except a file it replaced. */
  lemma RevertedNode(d: Tree, from: Path, to: Path)
    requires WellFormed(d) && from != "" && to != "" && from != to
    requires RenameNode(d, from, to).1
    ensures var (d2, ok) := RenameNode(RenameNode(d, from, to).0, to, from);
      ok && WellFormed(d2) && (forall p :: p in d && p != to ==> p in d2 && d2[p] == d[p])
      && to !in d2
  {
    RenamedNode(d, from, to);
    MadeDirs(d, to, Ancestors(to));
    var d0 := MakeDirs(d, Ancestors(to)).value;
    var d1 := RenameNode(d, from, to).0;
    ShiftLeavesRoom(d0, from, to, d1);
    var d2 := Shifted(d1, to, from);
    ShiftedShift(d1, to, from);
    ShiftStaysWellFormed(d1, to, from, d2);
    ShiftLeavesRoom(d1, to, from, d2);
    forall p | p in d && p != to ensures p in d2 && d2[p] == d[p] {
      RelocateBack(from, to, p);
      var q := Relocate(from, to, p);
      assert q in d1 && q != from;
    }
  }

  // ---------- when system calls work, node by node ----------

  /** No file stands where a directory above p has to be. */
  predicate WayIsFree(d: Tree, p: Path)
  {
    forall a :: a in Ancestors(p) && a in d ==> d[a].Dir?
  }

  /** Nodes that were there stay, but for those in changed; whatever else is new is a directory. */
  ghost predicate OnlyDirsAdded(d: Tree, d': Tree, changed: set<Path>)
  {
    && (forall q :: q in d && q !in changed ==> q in d' && d'[q] == d[q])
    && (forall q :: q in d' && q !in d && q !in changed ==> d'[q].Dir?)
  }

  /** A change of a file works exactly if no file stands in its way, its path is no directory and
      its end is a file offset. It creates what is missing: the file and the directories above it;
      a write that ends too far leaves the file as opened, and any other failure leaves no trace. */
  lemma ChangedNodes(d: Tree, p: Path, m: Mutation, now: int)
    requires !Malformed(m) && p != ""
    ensures var (d', ok) := MutateFile(d, p, m, now);
      var opens := WayIsFree(d, p) && !(p in d && d[p].Dir?);
      && (ok <==> opens && !(m.Splice? && m.offset + |m.bytes| > 0x7FFF_FFFF_FFFF_FFFF))
      && (!opens ==> d' == d)
      && (opens ==>
            && d'.Keys == d.Keys + Ancestors(p) + {p} && OnlyDirsAdded(d, d', {p})
            && d'[p] == if ok then File(Applied(m, BytesAt(d, p)), now)
                        else if p in d then d[p] else File([], now))
  {
    assert p !in Ancestors(p);
  }

  /** What the bytes of a file become. */
  lemma AppliedBytes(m: Mutation, was: Data)
    requires !Malformed(m)
    ensures var full := Applied(m, was);
      match m
      case Put(data) => full == data
      case Splice(offset, data) =>
        if data == [] then full == was
        else
          && |full| == (if |was| < offset + |data| then offset + |data| else |was|)
          && forall i :: 0 <= i < |full| ==>
            full[i] == if offset <= i < offset + |data| then data[i - offset] else if i < |was| then was[i] else 0
      case Resize(size) => |full| == size && forall i :: 0 <= i < size ==> full[i] == if i < |was| then was[i] else 0
  {
    match m
    case Put(_) =>
    case Splice(offset, data) => if data != [] { NonEmptyWriteSplices(was, offset, data); }
    case Resize(size) => ResizeAgreesWithDisk(was, size);
  }

  /** A node is removed exactly if it is there and nothing lies below it. */
  lemma RemovedNodes(d: Tree, p: Path)
    ensures RemoveNode(d, p).Some? <==> p in d && forall q :: q in d ==> !Under(p, q)
    ensures RemoveNode(d, p).Some? ==>
      var d' := RemoveNode(d, p).value;
      d'.Keys == d.Keys - {p} && forall q :: q in d' ==> d'[q] == d[q]
  { }

  /** A directory is made, with all above it, exactly if no file stands there or above. */
  lemma MadeNodes(d: Tree, p: Path)
    ensures var r := MakeDirs(d, Ancestors(p) + {p});
      && (r.Some? <==> WayIsFree(d, p) && !(p in d && d[p].File?))
      && (r.Some? ==> r.value.Keys == d.Keys + Ancestors(p) + {p} && OnlyDirsAdded(d, r.value, {}) && r.value[p].Dir?)
  { }

  /** A rename works exactly if its source is there, no file stands in the way of its target, the
      target does not lie in the source, and only a file replaces a file. One that fails leaves
      nothing behind but the directories above its target. */
  lemma RenamedNodes(d: Tree, from: Path, to: Path)
    requires WellFormed(d) && from != "" && to != "" && from != to
    ensures var (d', ok) := RenameNode(d, from, to);
      && (ok <==> from in d && WayIsFree(d, to) && !Under(from, to) && (to in d ==> d[to].File? && d[from].File?))
      && (!ok ==>
            && d'.Keys == d.Keys + (if WayIsFree(d, to) then Ancestors(to) else {}) && OnlyDirsAdded(d, d', {}))
  {
    assert from in Ancestors(to) <==> Under(from, to);
    assert to !in Ancestors(to);
  }
}
