/** Per-path locks taken by many threads: lock order, exclusion, and why nothing deadlocks. */
module PathLocker {
  import opened Paths
  import opened Sorting

  // ---------- the order in which several paths are locked ----------

  /** Strictly ascending: each path once, in lock order. */
  predicate Ascending(plan: seq<Path>)
  {
    forall i, j :: 0 <= i < j < |plan| ==> Before(plan[i], plan[j])
  }

  /** The plan of LockMany: duplicates dropped, the rest sorted. */
  method LockOrder(paths: seq<Path>) returns (ordered: seq<Path>)
    ensures Ascending(ordered)
    ensures forall p :: p in ordered <==> p in paths
  {
    var unique: seq<Path> := [];
    var seen: set<Path> := {};
    for n := 0 to |paths|
      invariant forall p :: p in seen <==> p in paths[..n]
      invariant forall p :: p in seen <==> p in unique
      invariant Distinct(unique)
    {
      if paths[n] !in seen {
        seen := seen + {paths[n]};
        unique := unique + [paths[n]];
      }
    }
    assert paths[..|paths|] == paths;
    NotAfterIsTotal();
    ordered := Sort(unique, NotAfter());
    forall p ensures p in ordered <==> p in unique {
      assert p in multiset(ordered) <==> p in multiset(unique);
    }
    SortedDistinct(unique, ordered);
  }

  lemma SortedDistinct(unique: seq<Path>, ordered: seq<Path>)
    requires multiset(unique) == multiset(ordered)
    requires Distinct(unique)
    requires Sorted(ordered, NotAfter())
    ensures Ascending(ordered)
  {
    DistinctPermuted(unique, ordered);
  }

  // ---------- threads ----------

  /** A thread holds the first held paths of its plan; leaving means it is unlocking. Lock is
      the plan of one path. */
  datatype Worker = Worker(plan: seq<Path>, held: nat, leaving: bool)

  datatype System = System(workers: seq<Worker>, owner: map<Path, nat>)

  predicate Done(w: Worker)
  {
    w.leaving && w.held == 0
  }

  /** Thread i can move: only taking an owned lock has to wait. */
  predicate Enabled(a: System, i: nat)
  {
    i < |a.workers| &&
    var w := a.workers[i];
    !Done(w) && (w.leaving || w.held >= |w.plan| || w.plan[w.held] !in a.owner)
  }

  function Step(a: System, i: nat): System
    requires Enabled(a, i)
  {
    var w := a.workers[i];
    if !w.leaving && w.held < |w.plan| then
      System(a.workers[i := w.(held := w.held + 1)], a.owner[w.plan[w.held] := i])
    else if !w.leaving then
      a.(workers := a.workers[i := w.(leaving := true)])
    else if w.held <= |w.plan| then
      System(a.workers[i := w.(held := w.held - 1)], a.owner - {w.plan[w.held - 1]})
    else a
  }

  ghost predicate Holds(w: Worker, p: Path)
  {
    w.held <= |w.plan| && p in w.plan[..w.held]
  }

  ghost predicate Inv(a: System)
  {
    && (forall i :: 0 <= i < |a.workers| ==> Ascending(a.workers[i].plan) && a.workers[i].held <= |a.workers[i].plan|)
    && (forall p :: p in a.owner ==> a.owner[p] < |a.workers| && Holds(a.workers[a.owner[p]], p))
    && (forall i, p :: 0 <= i < |a.workers| && Holds(a.workers[i], p) ==> p in a.owner && a.owner[p] == i)
  }

  ghost predicate Initial(a: System)
  {
    && a.owner == map[]
    && forall i :: 0 <= i < |a.workers| ==>
      Ascending(a.workers[i].plan) && a.workers[i].held == 0 && !a.workers[i].leaving
  }

  lemma TakeOne(w: Worker, p: Path)
    requires Ascending(w.plan) && w.held < |w.plan|
    ensures Holds(w.(held := w.held + 1), p) <==> Holds(w, p) || p == w.plan[w.held]
    ensures !Holds(w, w.plan[w.held])
  {
    assert w.plan[..w.held + 1] == w.plan[..w.held] + [w.plan[w.held]];
    forall i | 0 <= i < w.held ensures w.plan[i] != w.plan[w.held] {
      BeforeTrichotomy(w.plan[i], w.plan[w.held]);
    }
  }

  lemma TakeKeepsInv(a: System, i: nat)
    requires Inv(a) && Enabled(a, i) && !a.workers[i].leaving && a.workers[i].held < |a.workers[i].plan|
    ensures Inv(Step(a, i))
  {
    var b := Step(a, i);
    var w := a.workers[i];
    var want := w.plan[w.held];
    forall p ensures Holds(b.workers[i], p) <==> Holds(w, p) || p == want {
      TakeOne(w, p);
    }
    forall j, p | 0 <= j < |b.workers| && Holds(b.workers[j], p) ensures p in b.owner && b.owner[p] == j {
      if j == i {
        assert Holds(w, p) || p == want;
        assert Holds(a.workers[i], p) ==> a.owner[p] == i;
      } else {
        assert Holds(a.workers[j], p);
      }
    }
  }

  lemma GiveOne(w: Worker, p: Path)
    requires Ascending(w.plan) && 0 < w.held <= |w.plan|
    ensures Holds(w, p) <==> Holds(w.(held := w.held - 1), p) || p == w.plan[w.held - 1]
    ensures !Holds(w.(held := w.held - 1), w.plan[w.held - 1])
  {
    TakeOne(w.(held := w.held - 1), p);
  }

  lemma GiveKeepsOwner(a: System, i: nat, p: Path)
    requires Inv(a) && Enabled(a, i) && a.workers[i].leaving && p in Step(a, i).owner
    ensures var b := Step(a, i); b.owner[p] < |b.workers| && Holds(b.workers[b.owner[p]], p)
  {
    GiveOne(a.workers[i], p);
  }

  lemma GiveKeepsHolder(a: System, i: nat, j: nat, p: Path)
    requires Inv(a) && Enabled(a, i) && a.workers[i].leaving && j < |a.workers| && Holds(Step(a, i).workers[j], p)
    ensures var b := Step(a, i); p in b.owner && b.owner[p] == j
  {
    var w := a.workers[i];
    var last := w.plan[w.held - 1];
    GiveOne(w, p);
    GiveOne(w, last);
    assert a.owner[last] == i && Holds(a.workers[j], p);
  }

  lemma GiveKeepsInv(a: System, i: nat)
    requires Inv(a) && Enabled(a, i) && a.workers[i].leaving
    ensures Inv(Step(a, i))
  {
    var b := Step(a, i);
    var w := a.workers[i];
    assert b.workers == a.workers[i := w.(held := w.held - 1)];
    forall p | p in b.owner ensures b.owner[p] < |b.workers| && Holds(b.workers[b.owner[p]], p) {
      GiveKeepsOwner(a, i, p);
    }
    forall j, p | 0 <= j < |b.workers| && Holds(b.workers[j], p) ensures p in b.owner && b.owner[p] == j {
      GiveKeepsHolder(a, i, j, p);
    }
  }

  lemma StepKeepsInv(a: System, i: nat)
    requires Inv(a) && Enabled(a, i)
    ensures Inv(Step(a, i))
  {
    var w := a.workers[i];
    if w.leaving {
      GiveKeepsInv(a, i);
    } else if w.held < |w.plan| {
      TakeKeepsInv(a, i);
    } else {
      var b := Step(a, i);
      forall j, p | 0 <= j < |b.workers| ensures Holds(b.workers[j], p) <==> Holds(a.workers[j], p) { }
    }
  }

  /** Every path a thread holds comes before the one it waits for. */
  lemma HoldsOnlyBelow(w: Worker, p: Path)
    requires Ascending(w.plan) && w.held < |w.plan| && Holds(w, p)
    ensures Before(p, w.plan[w.held])
  { }

  /** Following waits-for leads to ever later paths, so it ends at a thread that can move. */
  lemma {:induction false} SomeoneMoves(a: System, i: nat) returns (k: nat)
    requires Inv(a) && i < |a.workers| && !Done(a.workers[i])
    ensures Enabled(a, k)
    decreases if Enabled(a, i) then 0
              else 1 + |set p | p in a.owner && Before(a.workers[i].plan[a.workers[i].held], p)|
  {
    if Enabled(a, i) {
      return i;
    }
    var want := a.workers[i].plan[a.workers[i].held];
    var j := a.owner[want];
    var w := a.workers[j];
    if Enabled(a, j) {
      return j;
    }
    HoldsOnlyBelow(w, want);
    var next := w.plan[w.held];
    var later, latest := set p | p in a.owner && Before(want, p), set p | p in a.owner && Before(next, p);
    forall p | p in latest ensures p in later { BeforeTransitive(want, next, p); }
    BeforeTrichotomy(next, next);
    assert next in later && next !in latest;
    assert latest <= later - {next};
    SubsetSize(latest, later - {next});
    k := SomeoneMoves(a, j);
  }

  /** An unfinished thread waits exactly while another one holds the path it needs next. */
  lemma WaitsOnlyForHolders(a: System, i: nat)
    requires Inv(a) && i < |a.workers| && !Done(a.workers[i])
    ensures var w := a.workers[i];
      !Enabled(a, i) <==>
        && !w.leaving && w.held < |w.plan|
        && exists j :: 0 <= j < |a.workers| && j != i && Holds(a.workers[j], w.plan[w.held])
  {
    var w := a.workers[i];
    if !w.leaving && w.held < |w.plan| {
      TakeOne(w, w.plan[w.held]);
    }
  }

  // ---------- whole runs ----------

  function Remaining(w: Worker): nat
  {
    if w.leaving then w.held
    else (if w.held <= |w.plan| then |w.plan| - w.held else 0) + 1 + |w.plan|
  }

  function Work(ws: seq<Worker>): nat
  {
    if ws == [] then 0 else Remaining(ws[0]) + Work(ws[1..])
  }

  lemma {:induction false} WorkUpdate(ws: seq<Worker>, i: nat, w: Worker)
    requires i < |ws|
    ensures Work(ws[i := w]) == Work(ws) - Remaining(ws[i]) + Remaining(w)
    decreases |ws|
  {
    if i > 0 {
      WorkUpdate(ws[1..], i - 1, w);
      assert ws[i := w][1..] == ws[1..][i - 1 := w];
    } else {
      assert ws[i := w][1..] == ws[1..];
    }
  }

  lemma StepDoesWork(a: System, i: nat)
    requires Inv(a) && Enabled(a, i)
    ensures Work(Step(a, i).workers) == Work(a.workers) - 1
  {
    WorkUpdate(a.workers, i, Step(a, i).workers[i]);
  }

  /** A run takes the named threads in turn; a blocked or finished one does nothing. */
  function Play(a: System, turns: seq<nat>): System
    decreases |turns|
  {
    if turns == [] then a
    else Play(if Enabled(a, turns[0]) then Step(a, turns[0]) else a, turns[1..])
  }

  lemma {:induction false} PlayKeepsInv(a: System, turns: seq<nat>)
    requires Inv(a)
    ensures Inv(Play(a, turns))
    decreases |turns|
  {
    if turns != [] {
      if Enabled(a, turns[0]) { StepKeepsInv(a, turns[0]); }
      PlayKeepsInv(if Enabled(a, turns[0]) then Step(a, turns[0]) else a, turns[1..]);
    }
  }

  /** In every run of any number of threads, no two hold the same path, and as long as one of
      them is unfinished some thread can move: there is no deadlock. */
  lemma NoDeadlock(a: System, turns: seq<nat>)
    requires Initial(a)
    ensures var b := Play(a, turns);
      (forall i, j, p :: 0 <= i < j < |b.workers| ==> !(Holds(b.workers[i], p) && Holds(b.workers[j], p)))
      && ((exists i :: 0 <= i < |b.workers| && !Done(b.workers[i])) ==> exists k :: Enabled(b, k))
  {
    PlayKeepsInv(a, turns);
    var b := Play(a, turns);
    forall i, j, p | 0 <= i < j < |b.workers| ensures !(Holds(b.workers[i], p) && Holds(b.workers[j], p)) {
      assert Holds(b.workers[i], p) ==> b.owner[p] == i;
      assert Holds(b.workers[j], p) ==> b.owner[p] == j;
    }
    if i :| 0 <= i < |b.workers| && !Done(b.workers[i]) {
      var k := SomeoneMoves(b, i);
    }
  }

  /** How many turns of a run moved a thread. */
  function Moves(a: System, turns: seq<nat>): nat
    decreases |turns|
  {
    if turns == [] then 0
    else if Enabled(a, turns[0]) then 1 + Moves(Step(a, turns[0]), turns[1..])
    else Moves(a, turns[1..])
  }

  lemma {:induction false} MovesDoWork(a: System, turns: seq<nat>)
    requires Inv(a)
    ensures Moves(a, turns) + Work(Play(a, turns).workers) == Work(a.workers)
    decreases |turns|
  {
    if turns != [] {
      if Enabled(a, turns[0]) {
        StepKeepsInv(a, turns[0]);
        StepDoesWork(a, turns[0]);
        MovesDoWork(Step(a, turns[0]), turns[1..]);
      } else {
        MovesDoWork(a, turns[1..]);
      }
    }
  }

  /** Every run makes at most Work(a) moves, and one that cannot go on has finished every
      thread and given back exactly the locks that were taken. */
  lemma EveryRunEnds(a: System, turns: seq<nat>)
    requires Initial(a)
    ensures Moves(a, turns) <= Work(a.workers)
    ensures var b := Play(a, turns);
      (forall k :: !Enabled(b, k)) ==> (forall i :: 0 <= i < |b.workers| ==> Done(b.workers[i])) && b.owner == map[]
  {
    MovesDoWork(a, turns);
    PlayKeepsInv(a, turns);
    var b := Play(a, turns);
    assert forall p :: p in b.owner ==> Holds(b.workers[b.owner[p]], p);
    if i :| 0 <= i < |b.workers| && !Done(b.workers[i]) {
      var k := SomeoneMoves(b, i);
    }
  }
}
