/** Policy pulls, updates, resets and registrations interleaved at statement granularity. */
module PolicyPull {
  import opened Wrappers
  import opened Registry

  type Thread = nat

  /** A pull has looked the device up, or has also cleared its flag. */
  datatype Pull = Found(device: Id) | Marked(device: Id)

  /** lastRead is the configuration last read for a device; behind are the devices whose last
      pull cleared the flag and then failed to read. */
  datatype System = System(db: Db, pulls: map<Thread, Pull>, lastRead: map<Id, Config>, behind: set<Id>)

  datatype Event =
    | Register(device: Id, profile: string, revision: nat)
    | Update(device: Id, config: Config, revision: nat)
    | Reset(device: Id, revision: nat)
    | Find(thread: Thread, device: Id)
    | Mark(thread: Thread)
    | Read(thread: Thread)
    | ReadFails(thread: Thread)

  predicate Possible(a: System, e: Event)
  {
    match e
    case Find(t, _) => t !in a.pulls
    case Mark(t) => t in a.pulls && a.pulls[t].Found?
    case Read(t) => t in a.pulls && a.pulls[t].Marked?
    case ReadFails(t) => t in a.pulls && a.pulls[t].Marked?
    case _ => true
  }

  function Committed(db: Db, r: Result<Db, Error>): Db
  {
    if r.Ok? then r.value else db
  }

  function Next(a: System, defaults: Config, e: Event): System
    requires Possible(a, e)
  {
    match e
    case Register(d, profile, rev) => a.(db := Committed(a.db, Registered(a.db, d, profile, rev)))
    case Update(d, config, rev) => a.(db := Committed(a.db, PolicySet(a.db, d, config, rev)))
    case Reset(d, rev) => a.(db := Committed(a.db, PolicyReset(a.db, d, rev)))
    case Find(t, d) => if d in a.db.devices then a.(pulls := a.pulls[t := Found(d)]) else a
    case Mark(t) =>
      var d := a.pulls[t].device;
      a.(db := Committed(a.db, PolicyPulled(a.db, d)), pulls := a.pulls[t := Marked(d)])
    case Read(t) =>
      var d := a.pulls[t].device;
      a.(pulls := a.pulls - {t}, lastRead := a.lastRead[d := Effective(a.db, d, defaults)], behind := a.behind - {d})
    case ReadFails(t) => a.(pulls := a.pulls - {t}, behind := a.behind + {a.pulls[t].device})
  }

  predicate MustPull(a: System, d: Id)
  {
    d in a.db.devices && a.db.devices[d].requiresPull
  }

  predicate BetweenMarkAndRead(a: System, d: Id)
  {
    exists t :: t in a.pulls && a.pulls[t] == Marked(d)
  }

  predicate UpToDate(a: System, d: Id, defaults: Config)
  {
    d in a.lastRead && a.lastRead[d] == Effective(a.db, d, defaults)
  }

  /** A device that need not pull has the effective configuration, is about to read it, or
      lost its pull to a failed read. */
  ghost predicate Inv(a: System, defaults: Config)
  {
    && (forall t :: t in a.pulls ==> a.pulls[t].device in a.db.devices)
    && (forall d :: d in a.db.policies ==> d in a.db.devices)
    && forall d :: d in a.db.devices ==>
      MustPull(a, d) || BetweenMarkAndRead(a, d) || d in a.behind || UpToDate(a, d, defaults)
  }

  lemma StepKeepsInv(a: System, defaults: Config, e: Event)
    requires Inv(a, defaults) && Possible(a, e)
    ensures Inv(Next(a, defaults, e), defaults)
  {
    var b := Next(a, defaults, e);
    forall d | d in b.db.devices
      ensures MustPull(b, d) || BetweenMarkAndRead(b, d) || d in b.behind || UpToDate(b, d, defaults)
    {
      if e.Mark? && a.pulls[e.thread].device == d {
        assert b.pulls[e.thread] == Marked(d);
      } else if d in a.db.devices && BetweenMarkAndRead(a, d) {
        var t :| t in a.pulls && a.pulls[t] == Marked(d);
        assert t in b.pulls ==> b.pulls[t] == Marked(d);
      }
    }
  }

  predicate AllPossible(a: System, defaults: Config, events: seq<Event>)
    decreases |events|
  {
    events == [] || (Possible(a, events[0]) && AllPossible(Next(a, defaults, events[0]), defaults, events[1..]))
  }

  function Play(a: System, defaults: Config, events: seq<Event>): System
    requires AllPossible(a, defaults, events)
    decreases |events|
  {
    if events == [] then a else Play(Next(a, defaults, events[0]), defaults, events[1..])
  }

  const EMPTY: System := System(Db(map[], map[], map[]), map[], map[], {})

  lemma {:induction false} PlayKeepsInv(a: System, defaults: Config, events: seq<Event>)
    requires Inv(a, defaults) && AllPossible(a, defaults, events)
    ensures Inv(Play(a, defaults, events), defaults)
    decreases |events|
  {
    if events != [] {
      StepKeepsInv(a, defaults, events[0]);
      PlayKeepsInv(Next(a, defaults, events[0]), defaults, events[1..]);
    }
  }

  lemma {:induction false} NoFailureNoneBehind(a: System, defaults: Config, events: seq<Event>)
    requires AllPossible(a, defaults, events) && forall k :: 0 <= k < |events| ==> !events[k].ReadFails?
    ensures Play(a, defaults, events).behind <= a.behind
    decreases |events|
  {
    if events != [] {
      NoFailureNoneBehind(Next(a, defaults, events[0]), defaults, events[1..]);
    }
  }

  /** In every interleaving, a device whose flag is clear and that has no pull between its mark
      and its read has last read its effective policy, unless a read failed after a mark. */
  lemma ClearFlagMeansUpToDate(defaults: Config, events: seq<Event>, d: Id)
    requires AllPossible(EMPTY, defaults, events)
    ensures var a := Play(EMPTY, defaults, events);
      d in a.db.devices && !MustPull(a, d) && !BetweenMarkAndRead(a, d)
      && (d !in a.behind || forall k :: 0 <= k < |events| ==> !events[k].ReadFails?)
      ==> UpToDate(a, d, defaults)
  {
    PlayKeepsInv(EMPTY, defaults, events);
    if forall k :: 0 <= k < |events| ==> !events[k].ReadFails? {
      NoFailureNoneBehind(EMPTY, defaults, events);
    }
  }

  lemma Unfold(a: System, defaults: Config, e: Event, rest: seq<Event>)
    requires Possible(a, e) && AllPossible(Next(a, defaults, e), defaults, rest)
    ensures AllPossible(a, defaults, [e] + rest)
    ensures Play(a, defaults, [e] + rest) == Play(Next(a, defaults, e), defaults, rest)
  {
    assert ([e] + rest)[1..] == rest;
  }

  /** The three steps without interruption have the effect of the whole call. */
  lemma UninterruptedPull(a: System, defaults: Config, t: Thread, d: Id)
    requires t !in a.pulls && d in a.db.devices
    ensures var events := [Find(t, d), Mark(t), Read(t)];
      && AllPossible(a, defaults, events)
      && Play(a, defaults, events) == System(
          PolicyPulled(a.db, d).value, a.pulls, a.lastRead[d := Effective(a.db, d, defaults)], a.behind - {d})
  {
    var s1 := Next(a, defaults, Find(t, d));
    var s2 := Next(s1, defaults, Mark(t));
    var s3 := Next(s2, defaults, Read(t));
    assert s3.pulls == a.pulls;
    var none: seq<Event> := [];
    Unfold(s2, defaults, Read(t), none);
    Unfold(s1, defaults, Mark(t), [Read(t)] + none);
    Unfold(a, defaults, Find(t, d), [Mark(t)] + ([Read(t)] + none));
    assert [Find(t, d)] + ([Mark(t)] + ([Read(t)] + none)) == [Find(t, d), Mark(t), Read(t)];
  }

  // ---------- why the flag is cleared first, and what a failed read costs ----------

  /** A pull that read first and cleared the flag afterwards. */
  function ReadThenMark(a: System, defaults: Config, t: Thread, between: Event): System
    requires t in a.pulls && Possible(a, between)
  {
    var d := a.pulls[t].device;
    var b := a.(lastRead := a.lastRead[d := Effective(a.db, d, defaults)]);
    var c := Next(b, defaults, between);
    c.(db := Committed(c.db, PolicyPulled(c.db, d)), pulls := c.pulls - {t})
  }

  function Registering(d: Id): seq<Event>
  {
    [Register(d, "", 1), Find(0, d)]
  }

  /** With the two statements swapped, an update between them is lost: the flag is clear, no
      pull is under way, and the device holds the old configuration. */
  lemma SwappedOrderLosesAnUpdate(d: Id, defaults: Config, config: Config)
    requires d != "" && config != defaults
    ensures AllPossible(EMPTY, defaults, Registering(d))
    ensures var a := Play(EMPTY, defaults, Registering(d));
      0 in a.pulls &&
      var b := ReadThenMark(a, defaults, 0, Update(d, config, 2));
      d in b.db.devices && !MustPull(b, d) && b.pulls == map[] && b.behind == {} && !UpToDate(b, d, defaults)
  {
    var s0 := Next(EMPTY, defaults, Register(d, "", 1));
    var s1 := Next(s0, defaults, Find(0, d));
    assert Registering(d)[1..] == [Find(0, d)];
    assert [Find(0, d)][1..] == [];
    assert s1.pulls == map[0 := Found(d)];
    assert Play(s0, defaults, [Find(0, d)]) == Play(s1, defaults, []);
  }

  /** A read that fails after the mark leaves the flag clear though nothing was read. */
  lemma FailedReadLeavesDeviceBehind(d: Id, defaults: Config)
    requires d != ""
    ensures var events := Registering(d) + [Mark(0), ReadFails(0)];
      AllPossible(EMPTY, defaults, events) &&
      var a := Play(EMPTY, defaults, events);
      d in a.db.devices && !MustPull(a, d) && !BetweenMarkAndRead(a, d) && !UpToDate(a, d, defaults)
  {
    var events := Registering(d) + [Mark(0), ReadFails(0)];
    var s1 := Next(EMPTY, defaults, Register(d, "", 1));
    var s2 := Next(s1, defaults, Find(0, d));
    var s3 := Next(s2, defaults, Mark(0));
    var s4 := Next(s3, defaults, ReadFails(0));
    assert events[1..] == [Find(0, d), Mark(0), ReadFails(0)];
    assert events[1..][1..] == [Mark(0), ReadFails(0)];
    assert [Mark(0), ReadFails(0)][1..] == [ReadFails(0)];
    assert [ReadFails(0)][1..] == [];
    assert AllPossible(s3, defaults, [ReadFails(0)]) && Play(s3, defaults, [ReadFails(0)]) == s4;
    assert AllPossible(s2, defaults, [Mark(0), ReadFails(0)]) && Play(s2, defaults, [Mark(0), ReadFails(0)]) == s4;
    assert AllPossible(s1, defaults, events[1..]) && Play(s1, defaults, events[1..]) == s4;
    assert events[0] == Register(d, "", 1);
    assert Play(EMPTY, defaults, events) == s4;
    assert s4.lastRead == map[] && s4.pulls == map[];
  }
}
