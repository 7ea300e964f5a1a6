/** Builds run concurrently: each takes its unit's lock, then a worker slot; a cleaner drops
    finished jobs from the table in two separate critical sections. */
module BuildRunner {
  import opened Wrappers

  type Unit = string

  datatype Status = Queued | Running | Success | Failed

  /** What a build's goroutine does next. */
  datatype Phase = LockUnit | TakeSlot | Begin | Execute | FreeSlot | UnlockUnit | Over

  datatype Job = Job(unit: Unit, phase: Phase, status: Status)

  /** Jobs are numbered in the order they were started; listed is the service's job table and
      chosen what a cleanup pass has decided to remove. */
  datatype Service = Service(jobs: seq<Job>, slots: nat, owner: map<Unit, nat>, listed: set<nat>, chosen: set<nat>)

  datatype Event =
    | StartBuild(unit: Unit)
    | Advance(job: nat, ok: bool)
    | Choose(victims: set<nat>)
    | Discard

  predicate Terminal(s: Status)
  {
    s == Success || s == Failed
  }

  predicate HasSlot(j: Job)
  {
    j.phase == Begin || j.phase == Execute || j.phase == FreeSlot
  }

  predicate HasUnit(j: Job)
  {
    j.phase == TakeSlot || HasSlot(j) || j.phase == UnlockUnit
  }

  /** Only a taken unit lock and a full slot channel make a build wait. */
  predicate Enabled(a: Service, workers: nat, i: nat)
  {
    i < |a.jobs| &&
    match a.jobs[i].phase
    case LockUnit => a.jobs[i].unit !in a.owner
    case TakeSlot => a.slots < workers
    case Over => false
    case _ => true
  }

  function Moved(j: Job, ok: bool): Job
  {
    match j.phase
    case LockUnit => j.(phase := TakeSlot)
    case TakeSlot => j.(phase := Begin)
    case Begin => j.(phase := Execute, status := Running)
    case Execute => j.(phase := FreeSlot, status := if ok then Success else Failed)
    case FreeSlot => j.(phase := UnlockUnit)
    case _ => j.(phase := Over)
  }

  predicate Possible(a: Service, workers: nat, e: Event)
  {
    match e
    case StartBuild(_) => true
    case Advance(i, _) => Enabled(a, workers, i)
    case Choose(victims) =>
      a.chosen == {} && victims <= a.listed
      && forall i :: i in victims ==> i < |a.jobs| && Terminal(a.jobs[i].status)
    case Discard => true
  }

  function Next(a: Service, workers: nat, e: Event): Service
    requires Possible(a, workers, e)
  {
    match e
    case StartBuild(u) => a.(jobs := a.jobs + [Job(u, LockUnit, Queued)], listed := a.listed + {|a.jobs|})
    case Choose(victims) => a.(chosen := victims)
    case Discard => a.(listed := a.listed - a.chosen, chosen := {})
    case Advance(i, ok) =>
      var j := a.jobs[i];
      Service(a.jobs[i := Moved(j, ok)],
              if j.phase == TakeSlot then a.slots + 1
              else if j.phase == FreeSlot && a.slots > 0 then a.slots - 1
              else a.slots,
              if j.phase == LockUnit then a.owner[j.unit := i]
              else if j.phase == UnlockUnit then a.owner - {j.unit}
              else a.owner,
              a.listed,
              a.chosen)
  }

  // ---------- what every step keeps ----------

  function SlotsHeld(jobs: seq<Job>): nat
  {
    if jobs == [] then 0 else (if HasSlot(jobs[0]) then 1 else 0) + SlotsHeld(jobs[1..])
  }

  function RunningJobs(jobs: seq<Job>): nat
  {
    if jobs == [] then 0 else (if jobs[0].status == Running then 1 else 0) + RunningJobs(jobs[1..])
  }

  /** The status shown tells where the build is. */
  predicate StatusFits(j: Job)
  {
    match j.phase
    case LockUnit => j.status == Queued
    case TakeSlot => j.status == Queued
    case Begin => j.status == Queued
    case Execute => j.status == Running
    case _ => Terminal(j.status)
  }

  ghost predicate LocksFit(a: Service)
  {
    && (forall u :: u in a.owner ==>
          a.owner[u] < |a.jobs| && a.jobs[a.owner[u]].unit == u && HasUnit(a.jobs[a.owner[u]]))
    && (forall i :: 0 <= i < |a.jobs| && HasUnit(a.jobs[i]) ==>
          a.jobs[i].unit in a.owner && a.owner[a.jobs[i].unit] == i)
  }

  ghost predicate TableFits(a: Service)
  {
    && (forall i :: 0 <= i < |a.jobs| ==> i in a.listed || Terminal(a.jobs[i].status))
    && (forall i :: i in a.chosen ==> i < |a.jobs| && Terminal(a.jobs[i].status))
  }

  ghost predicate Inv(a: Service, workers: nat)
  {
    && SlotsHeld(a.jobs) == a.slots <= workers
    && (forall i :: 0 <= i < |a.jobs| ==> StatusFits(a.jobs[i]))
    && LocksFit(a)
    && TableFits(a)
  }

  lemma {:induction false} SlotsUpdate(jobs: seq<Job>, i: nat, j: Job)
    requires i < |jobs|
    ensures SlotsHeld(jobs[i := j]) == SlotsHeld(jobs) - (if HasSlot(jobs[i]) then 1 else 0)
        + (if HasSlot(j) then 1 else 0)
    decreases |jobs|
  {
    if i > 0 {
      SlotsUpdate(jobs[1..], i - 1, j);
      assert jobs[i := j][1..] == jobs[1..][i - 1 := j];
    } else {
      assert jobs[i := j][1..] == jobs[1..];
    }
  }

  lemma {:induction false} SlotsExtend(jobs: seq<Job>, j: Job)
    requires !HasSlot(j)
    ensures SlotsHeld(jobs + [j]) == SlotsHeld(jobs)
    decreases |jobs|
  {
    if jobs == [] {
      assert (jobs + [j])[1..] == [];
    } else {
      SlotsExtend(jobs[1..], j);
      assert (jobs + [j])[1..] == jobs[1..] + [j];
    }
  }

  lemma LocksStayFit(a: Service, workers: nat, i: nat, ok: bool)
    requires Inv(a, workers) && Enabled(a, workers, i)
    ensures LocksFit(Next(a, workers, Advance(i, ok)))
  { }

  lemma TableStaysFit(a: Service, workers: nat, i: nat, ok: bool)
    requires Inv(a, workers) && Enabled(a, workers, i)
    ensures TableFits(Next(a, workers, Advance(i, ok)))
  {
    assert StatusFits(a.jobs[i]);
    assert Terminal(a.jobs[i].status) ==> Terminal(Moved(a.jobs[i], ok).status);
  }

  lemma SlotsStayFit(a: Service, workers: nat, i: nat, ok: bool)
    requires SlotsHeld(a.jobs) == a.slots <= workers && Enabled(a, workers, i)
    ensures var b := Next(a, workers, Advance(i, ok)); SlotsHeld(b.jobs) == b.slots <= workers
  {
    SlotsUpdate(a.jobs, i, Moved(a.jobs[i], ok));
  }

  lemma StartKeepsInv(a: Service, workers: nat, u: Unit)
    requires Inv(a, workers)
    ensures Inv(Next(a, workers, StartBuild(u)), workers)
  {
    SlotsExtend(a.jobs, Job(u, LockUnit, Queued));
  }

  lemma StepKeepsInv(a: Service, workers: nat, e: Event)
    requires Inv(a, workers) && Possible(a, workers, e)
    ensures Inv(Next(a, workers, e), workers)
  {
    match e
    case StartBuild(u) => StartKeepsInv(a, workers, u);
    case Choose(_) =>
    case Discard =>
    case Advance(i, ok) =>
      LocksStayFit(a, workers, i, ok);
      TableStaysFit(a, workers, i, ok);
      SlotsStayFit(a, workers, i, ok);
      assert StatusFits(a.jobs[i]) ==> StatusFits(Moved(a.jobs[i], ok));
  }

  lemma {:induction false} RunningHoldSlots(jobs: seq<Job>)
    requires forall i :: 0 <= i < |jobs| ==> StatusFits(jobs[i])
    ensures RunningJobs(jobs) <= SlotsHeld(jobs)
    decreases |jobs|
  {
    if jobs != [] {
      assert StatusFits(jobs[0]);
      RunningHoldSlots(jobs[1..]);
    }
  }

  // ---------- progress ----------

  lemma {:induction false} SomeSlotHolder(jobs: seq<Job>) returns (k: nat)
    requires SlotsHeld(jobs) > 0
    ensures k < |jobs| && HasSlot(jobs[k])
    decreases |jobs|
  {
    if HasSlot(jobs[0]) { return 0; }
    k := SomeSlotHolder(jobs[1..]);
    k := k + 1;
  }

  /** A build waiting for its unit waits for one that waits at most for a slot, and whoever
      has a slot can go on. */
  lemma SomeoneMoves(a: Service, workers: nat, i: nat) returns (k: nat)
    requires Inv(a, workers) && workers > 0 && i < |a.jobs| && a.jobs[i].phase != Over
    ensures Enabled(a, workers, k)
  {
    k := i;
    if !Enabled(a, workers, k) && a.jobs[k].phase == LockUnit {
      k := a.owner[a.jobs[k].unit];
    }
    if !Enabled(a, workers, k) {
      k := SomeSlotHolder(a.jobs);
    }
  }

  function Remaining(p: Phase): nat
  {
    match p
    case LockUnit => 6
    case TakeSlot => 5
    case Begin => 4
    case Execute => 3
    case FreeSlot => 2
    case UnlockUnit => 1
    case Over => 0
  }

  function Work(jobs: seq<Job>): nat
  {
    if jobs == [] then 0 else Remaining(jobs[0].phase) + Work(jobs[1..])
  }

  lemma {:induction false} WorkUpdate(jobs: seq<Job>, i: nat, j: Job)
    requires i < |jobs|
    ensures Work(jobs[i := j]) == Work(jobs) - Remaining(jobs[i].phase) + Remaining(j.phase)
    decreases |jobs|
  {
    if i > 0 {
      WorkUpdate(jobs[1..], i - 1, j);
      assert jobs[i := j][1..] == jobs[1..][i - 1 := j];
    } else {
      assert jobs[i := j][1..] == jobs[1..];
    }
  }

  lemma {:induction false} WorkExtend(jobs: seq<Job>, j: Job)
    ensures Work(jobs + [j]) == Work(jobs) + Remaining(j.phase)
    decreases |jobs|
  {
    if jobs == [] {
      assert (jobs + [j])[1..] == [];
    } else {
      WorkExtend(jobs[1..], j);
      assert (jobs + [j])[1..] == jobs[1..] + [j];
    }
  }

  // ---------- whole runs ----------

  predicate AllPossible(a: Service, workers: nat, events: seq<Event>)
    decreases |events|
  {
    events == [] || (Possible(a, workers, events[0]) && AllPossible(Next(a, workers, events[0]), workers, events[1..]))
  }

  function Play(a: Service, workers: nat, events: seq<Event>): Service
    requires AllPossible(a, workers, events)
    decreases |events|
  {
    if events == [] then a else Play(Next(a, workers, events[0]), workers, events[1..])
  }

  const EMPTY: Service := Service([], 0, map[], {}, {})

  lemma {:induction false} PlayKeepsInv(a: Service, workers: nat, events: seq<Event>)
    requires Inv(a, workers) && AllPossible(a, workers, events)
    ensures Inv(Play(a, workers, events), workers)
    decreases |events|
  {
    if events != [] {
      StepKeepsInv(a, workers, events[0]);
      PlayKeepsInv(Next(a, workers, events[0]), workers, events[1..]);
    }
  }

  ghost predicate OneBuildPerUnit(jobs: seq<Job>)
  {
    forall i, j :: 0 <= i < j < |jobs| && jobs[i].status == jobs[j].status == Running ==> jobs[i].unit != jobs[j].unit
  }

  /** In every interleaving of starts, builds and cleanup: at most workers builds run, at most
      one per unit, no unfinished job leaves the table, and while a job is unfinished and there
      is a worker some build can go on. */
  lemma EveryRunIsSafe(workers: nat, events: seq<Event>)
    requires AllPossible(EMPTY, workers, events)
    ensures var b := Play(EMPTY, workers, events);
      RunningJobs(b.jobs) <= workers
      && OneBuildPerUnit(b.jobs)
      && (forall i :: 0 <= i < |b.jobs| && !Terminal(b.jobs[i].status) ==> i in b.listed)
      && (workers > 0 && (exists i :: 0 <= i < |b.jobs| && b.jobs[i].phase != Over) ==>
          exists k :: Enabled(b, workers, k))
  {
    PlayKeepsInv(EMPTY, workers, events);
    var b := Play(EMPTY, workers, events);
    RunningHoldSlots(b.jobs);
    forall i, j | 0 <= i < j < |b.jobs| && b.jobs[i].status == b.jobs[j].status == Running
      ensures b.jobs[i].unit != b.jobs[j].unit
    {
      assert HasUnit(b.jobs[i]) && HasUnit(b.jobs[j]);
    }
    if workers > 0 {
      if i :| 0 <= i < |b.jobs| && b.jobs[i].phase != Over {
        var k := SomeoneMoves(b, workers, i);
      }
    }
  }

  /** One step of a status: queued to running, running to success or failed, or no change. */
  predicate StatusStep(s: Status, t: Status)
  {
    s == t || (s == Queued && t == Running) || (s == Running && Terminal(t))
  }

  lemma StatusMovesForward(a: Service, workers: nat, e: Event, i: nat)
    requires Inv(a, workers) && Possible(a, workers, e) && i < |a.jobs|
    ensures i < |Next(a, workers, e).jobs|
    ensures StatusStep(a.jobs[i].status, Next(a, workers, e).jobs[i].status)
    ensures Next(a, workers, e).jobs[i].unit == a.jobs[i].unit
  {
    assert StatusFits(a.jobs[i]);
  }

  /** Statuses along a whole run: a finished build keeps its outcome, and nothing is queued again. */
  lemma {:induction false} StatusNeverGoesBack(a: Service, workers: nat, events: seq<Event>, i: nat)
    requires Inv(a, workers) && AllPossible(a, workers, events) && i < |a.jobs|
    ensures var b := Play(a, workers, events);
      i < |b.jobs|
      && (Terminal(a.jobs[i].status) ==> b.jobs[i].status == a.jobs[i].status)
      && (a.jobs[i].status == Running ==> b.jobs[i].status != Queued)
    decreases |events|
  {
    if events != [] {
      StepKeepsInv(a, workers, events[0]);
      StatusMovesForward(a, workers, events[0], i);
      StatusNeverGoesBack(Next(a, workers, events[0]), workers, events[1..], i);
    }
  }

  // ---------- outcomes ----------

  /** The step that ends the command of job i, and how the command ended. */
  predicate EndsCommand(a: Service, e: Event, i: nat)
  {
    e.Advance? && e.job == i && i < |a.jobs| && a.jobs[i].status == Running
  }

  /** A running build becomes a success exactly if its command ends well, and a failure exactly if
      it does not; no other step ends it, and no other step touches its status but the one that
      sets it running when it has its unit and its slot. */
  lemma OutcomeOfStep(a: Service, workers: nat, e: Event, i: nat)
    requires Inv(a, workers) && Possible(a, workers, e) && i < |a.jobs|
    ensures var before, after := a.jobs[i], Next(a, workers, e).jobs[i];
      after.status ==
        if e.Advance? && e.job == i && before.status == Running && before.phase == Execute then
          (if e.ok then Success else Failed)
        else if e.Advance? && e.job == i && before.phase == Begin then Running
        else before.status
    ensures EndsCommand(a, e, i) ==> a.jobs[i].phase == Execute
  {
    assert StatusFits(a.jobs[i]);
  }

  /** What the run says of job i's command: None while it has not ended. */
  function Verdict(a: Service, workers: nat, events: seq<Event>, i: nat): Option<bool>
    requires AllPossible(a, workers, events)
    decreases |events|
  {
    if events == [] then None
    else if EndsCommand(a, events[0], i) then Some(events[0].ok)
    else Verdict(Next(a, workers, events[0]), workers, events[1..], i)
  }

  lemma {:induction false} OutcomeOfRun(a: Service, workers: nat, events: seq<Event>, i: nat)
    requires Inv(a, workers) && AllPossible(a, workers, events)
    requires i < |a.jobs| ==> !Terminal(a.jobs[i].status)
    ensures var b := Play(a, workers, events);
      i < |b.jobs| ==>
        && (b.jobs[i].status == Success <==> Verdict(a, workers, events, i) == Some(true))
        && (b.jobs[i].status == Failed <==> Verdict(a, workers, events, i) == Some(false))
    decreases |events|
  {
    if events != [] {
      var b := Next(a, workers, events[0]);
      StepKeepsInv(a, workers, events[0]);
      if i < |a.jobs| { OutcomeOfStep(a, workers, events[0], i); }
      if EndsCommand(a, events[0], i) {
        StatusNeverGoesBack(b, workers, events[1..], i);
      } else {
        OutcomeOfRun(b, workers, events[1..], i);
      }
    }
  }

  /** Along every run a job is a success, or a failure, exactly if its command has ended and ended
      well, or badly. */
  lemma StatusTellsTheOutcome(workers: nat, events: seq<Event>, i: nat)
    requires AllPossible(EMPTY, workers, events) && i < |Play(EMPTY, workers, events).jobs|
    ensures var status := Play(EMPTY, workers, events).jobs[i].status;
      match Verdict(EMPTY, workers, events, i)
      case Some(ok) => status == if ok then Success else Failed
      case None => status == Queued || status == Running
  {
    OutcomeOfRun(EMPTY, workers, events, i);
  }

  // ---------- the table ----------

  /** Jobs that the passes of a run take out of the table; pending is what a pass has chosen and
      not yet discarded. */
  function Forgotten(events: seq<Event>, pending: set<nat>): set<nat>
    decreases |events|
  {
    if events == [] then {}
    else match events[0]
      case Choose(victims) => Forgotten(events[1..], victims)
      case Discard => pending + Forgotten(events[1..], {})
      case _ => Forgotten(events[1..], pending)
  }

  lemma {:induction false} ListedOrForgotten(a: Service, workers: nat, events: seq<Event>, i: nat)
    requires Inv(a, workers) && AllPossible(a, workers, events)
    ensures var b := Play(a, workers, events);
      i in b.listed <==> (i in a.listed || |a.jobs| <= i < |b.jobs|) && i !in Forgotten(events, a.chosen)
    ensures |a.jobs| <= |Play(a, workers, events).jobs|
    decreases |events|
  {
    if events != [] {
      StepKeepsInv(a, workers, events[0]);
      ListedOrForgotten(Next(a, workers, events[0]), workers, events[1..], i);
    }
  }

  /** Along every run the table has exactly the jobs started, but for those that a pass has chosen
      and then discarded. */
  lemma TableTellsTheRun(workers: nat, events: seq<Event>, i: nat)
    requires AllPossible(EMPTY, workers, events)
    ensures var b := Play(EMPTY, workers, events); i in b.listed <==> i < |b.jobs| && i !in Forgotten(events, {})
  {
    ListedOrForgotten(EMPTY, workers, events, i);
  }

  /** A build waits exactly while another one has its unit, or while all slots are taken. */
  lemma WaitsOnlyWhenTaken(a: Service, workers: nat, i: nat)
    requires Inv(a, workers) && i < |a.jobs| && a.jobs[i].phase != Over
    ensures !Enabled(a, workers, i) <==>
      || (a.jobs[i].phase == LockUnit
          && exists j :: 0 <= j < |a.jobs| && a.jobs[j].unit == a.jobs[i].unit && HasUnit(a.jobs[j]))
      || (a.jobs[i].phase == TakeSlot && SlotsHeld(a.jobs) == workers)
  { }

  function Started(events: seq<Event>): nat
  {
    if events == [] then 0 else (if events[0].StartBuild? then 1 else 0) + Started(events[1..])
  }

  function Advances(events: seq<Event>): nat
  {
    if events == [] then 0 else (if events[0].Advance? then 1 else 0) + Advances(events[1..])
  }

  /** Every step a build takes uses up one of its six. */
  lemma {:induction false} StepsAreCounted(a: Service, workers: nat, events: seq<Event>)
    requires AllPossible(a, workers, events)
    ensures Work(Play(a, workers, events).jobs) + Advances(events) == Work(a.jobs) + 6 * Started(events)
    decreases |events|
  {
    if events != [] {
      match events[0] {
        case StartBuild(u) => WorkExtend(a.jobs, Job(u, LockUnit, Queued));
        case Advance(i, ok) => WorkUpdate(a.jobs, i, Moved(a.jobs[i], ok));
        case Choose(_) =>
        case Discard =>
      }
      StepsAreCounted(Next(a, workers, events[0]), workers, events[1..]);
    }
  }

  lemma {:induction false} NothingLeft(jobs: seq<Job>)
    requires forall i :: 0 <= i < |jobs| ==> jobs[i].phase == Over
    ensures SlotsHeld(jobs) == Work(jobs) == 0
    decreases |jobs|
  {
    if jobs != [] { NothingLeft(jobs[1..]); }
  }

  /** Builds take at most six steps each, and when none can go on every one of them has
      finished, with all slots and unit locks given back. */
  lemma EveryRunEnds(workers: nat, events: seq<Event>)
    requires AllPossible(EMPTY, workers, events) && workers > 0
    ensures Advances(events) <= 6 * Started(events)
    ensures var b := Play(EMPTY, workers, events);
      (forall k :: !Enabled(b, workers, k)) ==>
        (forall i :: 0 <= i < |b.jobs| ==> b.jobs[i].phase == Over && Terminal(b.jobs[i].status))
        && b.slots == 0 && b.owner == map[] && Advances(events) == 6 * Started(events)
  {
    StepsAreCounted(EMPTY, workers, events);
    PlayKeepsInv(EMPTY, workers, events);
    var b := Play(EMPTY, workers, events);
    if forall k :: !Enabled(b, workers, k) {
      forall i | 0 <= i < |b.jobs| ensures b.jobs[i].phase == Over {
        if b.jobs[i].phase != Over {
          var k := SomeoneMoves(b, workers, i);
        }
      }
      NothingLeft(b.jobs);
      assert forall i :: 0 <= i < |b.jobs| ==> StatusFits(b.jobs[i]);
    }
  }
}
