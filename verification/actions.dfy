/** The queue of client actions: heartbeats list and mark in two statements, so they may
    overlap; administrators enqueue in one transaction. */
module Actions {
  import opened Sorting
  import opened Registry

  type Thread = nat

  /** A heartbeat that has listed its page at a step of the run. */
  datatype Open = Open(page: seq<Id>, listedAt: nat)

  /** A heartbeat that has marked its page and returned it. */
  datatype Done = Done(page: seq<Id>, listedAt: nat, markedAt: nat)

  datatype System = System(db: Db, open: map<Thread, Open>, returned: seq<Done>, clock: nat)

  /** GiveUp is a heartbeat whose mark failed: it returns an error. */
  datatype Event =
    | List(thread: Thread, device: Id, page: seq<Id>)
    | Mark(thread: Thread, now: int)
    | GiveUp(thread: Thread)
    | Enqueue(device: Id, kind: string, payload: string, replace: bool, id: Id, now: int)
    | Other(devices: map<Id, Device>)

  predicate Terminal(s: Status)
  {
    s == Delivered || s == Cancelled
  }

  ghost predicate Possible(a: System, e: Event)
  {
    match e
    case List(t, d, page) => t !in a.open && Page(a.db, d, PAGE, page)
    case Mark(t, _) => t in a.open
    case GiveUp(t) => t in a.open
    case _ => true
  }

  function Next(a: System, e: Event): System
  {
    match e
    case List(t, d, page) => System(a.db, a.open[t := Open(page, a.clock)], a.returned, a.clock + 1)
    case Mark(t, now) =>
      if t !in a.open then a
      else
        var o := a.open[t];
        System(ActionsDelivered(a.db, o.page, now), a.open - {t},
               a.returned + [Done(o.page, o.listedAt, a.clock)], a.clock + 1)
    case GiveUp(t) => System(a.db, a.open - {t}, a.returned, a.clock + 1)
    case Enqueue(d, kind, payload, replace, id, now) =>
      var r := Enqueued(a.db, d, kind, payload, replace, id, now);
      System(if r.Ok? then r.value else a.db, a.open, a.returned, a.clock + 1)
    case Other(devices) => System(a.db.(devices := devices), a.open, a.returned, a.clock + 1)
  }

  ghost predicate AllPossible(a: System, events: seq<Event>)
    decreases |events|
  {
    events == [] || (Possible(a, events[0]) && AllPossible(Next(a, events[0]), events[1..]))
  }

  function Play(a: System, events: seq<Event>): System
    decreases |events|
  {
    if events == [] then a else Play(Next(a, events[0]), events[1..])
  }

  // ---------- statuses ----------

  predicate StatusStep(s: Status, t: Status)
  {
    s == t || (s == Pending && Terminal(t))
  }

  lemma StatusMovesForward(a: System, e: Event, id: Id)
    requires id in a.db.actions
    ensures id in Next(a, e).db.actions
    ensures StatusStep(a.db.actions[id].status, Next(a, e).db.actions[id].status)
    ensures Next(a, e).db.actions[id].device == a.db.actions[id].device
    ensures Next(a, e).db.actions[id].kind == a.db.actions[id].kind
  { }

  /** Along a run an action leaves pending at most once, and for good. */
  lemma {:induction false} StatusNeverGoesBack(a: System, events: seq<Event>, id: Id)
    requires id in a.db.actions
    ensures var b := Play(a, events);
      id in b.db.actions && StatusStep(a.db.actions[id].status, b.db.actions[id].status)
    decreases |events|
  {
    if events != [] {
      StatusMovesForward(a, events[0], id);
      StatusNeverGoesBack(Next(a, events[0]), events[1..], id);
    }
  }

  // ---------- who is told about an action ----------

  ghost predicate NotPending(db: Db, page: seq<Id>)
  {
    forall id :: id in page ==> id in db.actions && Terminal(db.actions[id].status)
  }

  /** Two heartbeats that return the same action overlapped: the later to return had listed
      before the earlier one marked. */
  ghost predicate SharedMeansOverlap(returned: seq<Done>)
  {
    forall k, l, id :: 0 <= k < l < |returned| && id in returned[k].page && id in returned[l].page ==>
      returned[l].listedAt < returned[k].markedAt
  }

  ghost predicate Inv(a: System)
  {
    && (forall k :: 0 <= k < |a.returned| ==>
          NotPending(a.db, a.returned[k].page) && a.returned[k].markedAt < a.clock && Distinct(a.returned[k].page))
    && (forall t :: t in a.open ==>
          && a.open[t].listedAt < a.clock && Distinct(a.open[t].page)
          && forall id :: id in a.open[t].page ==> id in a.db.actions)
    && (forall t, k, id :: t in a.open && 0 <= k < |a.returned| && id in a.open[t].page && id in a.returned[k].page ==>
          a.open[t].listedAt < a.returned[k].markedAt)
    && SharedMeansOverlap(a.returned)
  }

  lemma StaysNotPending(a: System, e: Event, page: seq<Id>)
    requires NotPending(a.db, page)
    ensures NotPending(Next(a, e).db, page)
  {
    forall id | id in page ensures id in Next(a, e).db.actions && Terminal(Next(a, e).db.actions[id].status) {
      StatusMovesForward(a, e, id);
    }
  }

  lemma MarkedAreNotPending(db: Db, page: seq<Id>, now: int)
    requires forall id :: id in page ==> id in db.actions
    ensures NotPending(ActionsDelivered(db, page, now), page)
  { }

  lemma ListKeepsInv(a: System, e: Event)
    requires Inv(a) && Possible(a, e) && e.List?
    ensures Inv(Next(a, e))
  {
    forall id | id in e.page ensures id in PendingOf(a.db, e.device) {
      assert id in SetOf(e.page);
    }
    forall k, id | 0 <= k < |a.returned| && id in a.returned[k].page ensures id !in e.page {
      assert NotPending(a.db, a.returned[k].page);
    }
  }

  lemma MarkKeepsInv(a: System, e: Event)
    requires Inv(a) && Possible(a, e) && e.Mark?
    ensures Inv(Next(a, e))
  {
    var b := Next(a, e);
    var o := a.open[e.thread];
    MarkedAreNotPending(a.db, o.page, e.now);
    forall k | 0 <= k < |b.returned| ensures NotPending(b.db, b.returned[k].page) {
      if k < |a.returned| { StaysNotPending(a, e, a.returned[k].page); }
    }
  }

  lemma StepKeepsInv(a: System, e: Event)
    requires Inv(a) && Possible(a, e)
    ensures Inv(Next(a, e))
  {
    match e
    case List(_, _, _) => ListKeepsInv(a, e);
    case Mark(_, _) => MarkKeepsInv(a, e);
    case _ =>
      forall k | 0 <= k < |a.returned| ensures NotPending(Next(a, e).db, a.returned[k].page) {
        StaysNotPending(a, e, a.returned[k].page);
      }
  }

  lemma {:induction false} PlayKeepsInv(a: System, events: seq<Event>)
    requires Inv(a) && AllPossible(a, events)
    ensures Inv(Play(a, events))
    decreases |events|
  {
    if events != [] {
      StepKeepsInv(a, events[0]);
      PlayKeepsInv(Next(a, events[0]), events[1..]);
    }
  }

  /** In every interleaving, heartbeats that do not overlap never return the same action, and
      none returns an action twice. */
  lemma NoActionReturnedTwice(db: Db, events: seq<Event>, k: nat, l: nat, id: Id)
    requires AllPossible(System(db, map[], [], 0), events)
    ensures var r := Play(System(db, map[], [], 0), events).returned;
      k < l < |r| && r[k].markedAt < r[l].listedAt && id in r[k].page ==> id !in r[l].page
    ensures var r := Play(System(db, map[], [], 0), events).returned; k < |r| ==> Distinct(r[k].page)
  {
    PlayKeepsInv(System(db, map[], [], 0), events);
  }

  /** Overlapping heartbeats do: both list before either marks. */
  lemma OverlappingHeartbeatsRepeat(db: Db, d: Id, id: Id, page: seq<Id>)
    requires Page(db, d, PAGE, page) && id in page
    ensures var events := [List(0, d, page), List(1, d, page), Mark(0, 0), Mark(1, 0)];
      var a := System(db, map[], [], 0);
      && AllPossible(a, events)
      && var r := Play(a, events).returned; |r| == 2 && id in r[0].page && id in r[1].page
  {
    var a := System(db, map[], [], 0);
    var e0, e1, e2, e3 := List(0, d, page), List(1, d, page), Mark(0, 0), Mark(1, 0);
    var s1 := Next(a, e0);
    var s2 := Next(s1, e1);
    var s3 := Next(s2, e2);
    var s4 := Next(s3, e3);
    assert [e0, e1, e2, e3][1..] == [e1, e2, e3] && [e1, e2, e3][1..] == [e2, e3] && [e2, e3][1..] == [e3]
        && [e3][1..] == [];
    assert Play(s4, []) == s4 && AllPossible(s4, []);
    assert [e3][0] == e3;
    assert AllPossible(s3, [e3]) && Play(s3, [e3]) == s4;
    assert AllPossible(s2, [e2, e3]) && Play(s2, [e2, e3]) == s4;
    assert AllPossible(s1, [e1, e2, e3]) && Play(s1, [e1, e2, e3]) == s4;
  }

  // ---------- who takes an action out of the queue ----------

  /** The step delivers the action: a heartbeat marks a page that has it. */
  predicate Delivers(a: System, e: Event, id: Id)
  {
    e.Mark? && e.thread in a.open && id in a.open[e.thread].page
  }

  /** The step cancels the action: a request that is accepted replaces those like it. */
  predicate Cancels(a: System, e: Event, id: Id)
  {
    && e.Enqueue? && e.replace && e.device != "" && e.kind != "" && e.id !in a.db.actions
    && id in a.db.actions && a.db.actions[id].device == e.device && a.db.actions[id].kind == e.kind
  }

  /** What one step does to an action that is there: a pending one is delivered, or cancelled, at
      the step's time, exactly if the step delivers or cancels it; nothing else ever changes. */
  lemma StepOfAnAction(a: System, e: Event, id: Id)
    requires id in a.db.actions
    ensures id in Next(a, e).db.actions
    ensures var before, after := a.db.actions[id], Next(a, e).db.actions[id];
      after ==
        if before.status == Pending && Delivers(a, e, id) then
          before.(status := Delivered, deliveredAt := if before.deliveredAt == 0 then e.now else before.deliveredAt)
        else if before.status == Pending && Cancels(a, e, id) then before.(status := Cancelled, completedAt := e.now)
        else before
  { }

  /** How the run takes a pending action out of the queue: delivered or cancelled, and when. */
  datatype Fate = StaysPending | DeliveredAt(now: int) | CancelledAt(now: int)

  function FateOf(a: System, events: seq<Event>, id: Id): Fate
    decreases |events|
  {
    if events == [] then StaysPending
    else if Delivers(a, events[0], id) then DeliveredAt(events[0].now)
    else if Cancels(a, events[0], id) then CancelledAt(events[0].now)
    else FateOf(Next(a, events[0]), events[1..], id)
  }

  lemma {:induction false} TakenOutStays(a: System, events: seq<Event>, id: Id)
    requires id in a.db.actions && a.db.actions[id].status != Pending
    ensures id in Play(a, events).db.actions && Play(a, events).db.actions[id] == a.db.actions[id]
    decreases |events|
  {
    if events != [] {
      StepOfAnAction(a, events[0], id);
      TakenOutStays(Next(a, events[0]), events[1..], id);
    }
  }

  /** Along every run a pending action leaves the queue only through the first heartbeat that
      marks it or the first request that replaces it; its row then shows which and when, and is
      otherwise as it was requested. */
  lemma {:induction false} ActionTellsItsStory(a: System, events: seq<Event>, id: Id)
    requires id in a.db.actions && a.db.actions[id].status == Pending && a.db.actions[id].deliveredAt == 0
    ensures id in Play(a, events).db.actions
    ensures var x, y := a.db.actions[id], Play(a, events).db.actions[id];
      match FateOf(a, events, id)
      case StaysPending => y == x
      case DeliveredAt(now) => y == x.(status := Delivered, deliveredAt := now)
      case CancelledAt(now) => y == x.(status := Cancelled, completedAt := now)
    decreases |events|
  {
    if events != [] {
      StepOfAnAction(a, events[0], id);
      var b := Next(a, events[0]);
      if Delivers(a, events[0], id) || Cancels(a, events[0], id) {
        TakenOutStays(b, events[1..], id);
      } else {
        ActionTellsItsStory(b, events[1..], id);
      }
    }
  }

  // ---------- replacing and draining ----------

  /** After a replacing request its action is the only pending one of that device and kind. */
  lemma ReplacingLeavesOne(db: Db, d: Id, kind: string, payload: string, id: Id, now: int)
    requires d != "" && kind != "" && id !in db.actions
    ensures Enqueued(db, d, kind, payload, true, id, now).Ok?
    ensures var after := Enqueued(db, d, kind, payload, true, id, now).value;
      && (forall x :: (x in after.actions && after.actions[x].device == d && after.actions[x].kind == kind
                      && after.actions[x].status == Pending) <==> x == id)
      && (forall x ::
            x in db.actions
            && !(db.actions[x].device == d && db.actions[x].kind == kind && db.actions[x].status == Pending) ==>
            x in after.actions && after.actions[x] == db.actions[x])
      && after.actions.Keys == db.actions.Keys + {id}
  { }

  /** A whole heartbeat: what it returned and when. */
  datatype Beat = Beat(page: seq<Id>, now: int)

  /** Heartbeats of one device, one after the other. */
  ghost predicate Drains(db: Db, d: Id, beats: seq<Beat>)
    decreases |beats|
  {
    beats == [] ||
    (Page(db, d, PAGE, beats[0].page) && Drains(ActionsDelivered(db, beats[0].page, beats[0].now), d, beats[1..]))
  }

  function Drained(db: Db, beats: seq<Beat>): Db
    decreases |beats|
  {
    if beats == [] then db else Drained(ActionsDelivered(db, beats[0].page, beats[0].now), beats[1..])
  }

  lemma DeliveredLeavePending(db: Db, d: Id, page: seq<Id>, now: int)
    requires Page(db, d, PAGE, page)
    ensures PendingOf(ActionsDelivered(db, page, now), d) == PendingOf(db, d) - SetOf(page)
    ensures |PendingOf(ActionsDelivered(db, page, now), d)| == |PendingOf(db, d)| - |page|
  {
    DistinctSize(page);
  }

  /** Each heartbeat delivers sixteen pending actions, or all that are left. */
  lemma {:induction false} HeartbeatsDrain(db: Db, d: Id, beats: seq<Beat>)
    requires Drains(db, d, beats)
    ensures var n := |PendingOf(db, d)|;
      |PendingOf(Drained(db, beats), d)| == if n <= 16 * |beats| then 0 else n - 16 * |beats|
    ensures forall id :: id in PendingOf(db, d) ==>
      id in Drained(db, beats).actions
      && (Drained(db, beats).actions[id].status == Delivered || id in PendingOf(Drained(db, beats), d))
    decreases |beats|
  {
    if beats != [] {
      var after := ActionsDelivered(db, beats[0].page, beats[0].now);
      DeliveredLeavePending(db, d, beats[0].page, beats[0].now);
      HeartbeatsDrain(after, d, beats[1..]);
      forall id | id in PendingOf(db, d) && id in SetOf(beats[0].page)
        ensures id in Drained(db, beats).actions && Drained(db, beats).actions[id].status == Delivered
      {
        DeliveredStays(after, beats[1..], id);
      }
    }
  }

  lemma {:induction false} DeliveredStays(db: Db, beats: seq<Beat>, id: Id)
    requires id in db.actions && db.actions[id].status == Delivered
    ensures id in Drained(db, beats).actions && Drained(db, beats).actions[id].status == Delivered
    decreases |beats|
  {
    if beats != [] { DeliveredStays(ActionsDelivered(db, beats[0].page, beats[0].now), beats[1..], id); }
  }

  /** n pending actions are all delivered after the n sixteenths, rounded up, of heartbeats. */
  lemma AllDelivered(db: Db, d: Id, beats: seq<Beat>)
    requires Drains(db, d, beats) && |beats| == (|PendingOf(db, d)| + 15) / 16
    ensures forall id :: id in PendingOf(db, d) ==>
      id in Drained(db, beats).actions && Drained(db, beats).actions[id].status == Delivered
  {
    HeartbeatsDrain(db, d, beats);
    assert PendingOf(Drained(db, beats), d) == {};
  }
}
