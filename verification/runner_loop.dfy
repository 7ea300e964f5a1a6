/** The cleanup runner: a one-slot trigger channel, a minimum interval, and one timer. */
module RunnerLoop {
  import opened Wrappers

  /** The loop's variables; armed is when the timer is set to fire, token a waiting trigger. */
  datatype Loop = Loop(lastRun: Option<int>, armed: Option<int>, token: bool)

  /** An armed timer is only ever brought forward. */
  function ScheduledAt(l: Loop, at: int): Loop
  {
    if l.armed.Some? && at >= l.armed.value then l else l.(armed := Some(at))
  }

  /** The callback ran and asked to be called again at next, at the earliest now. */
  function RanAt(l: Loop, now: int, next: Option<int>): Loop
  {
    Loop(Some(now), if next.None? then None else Some(if next.value < now then now else next.value), l.token)
  }

  /** A trigger comes too early to run at once. */
  predicate TooEarly(l: Loop, interval: int, now: int)
  {
    interval > 0 && l.lastRun.Some? && now < l.lastRun.value + interval
  }

  class Runner {
    const interval: int
    var lastRun: Option<int>
    var scheduledAt: Option<int>
    var triggered: bool

    ghost function Current(): Loop
      reads this
    {
      Loop(lastRun, scheduledAt, triggered)
    }

    /** The loop starts by running the callback. */
    constructor (interval: int, now: int, next: Option<int>)
      ensures this.interval == interval
      ensures Current() == RanAt(Loop(None, None, false), now, next)
    {
      this.interval := interval;
      lastRun, scheduledAt, triggered := None, None, false;
      new;
      RunNow(now, next);
    }

    method Trigger()
      modifies this
      ensures Current() == old(Current()).(token := true)
    {
      if !triggered {
        triggered := true;
      }
    }

    method ScheduleAt(at: int)
      modifies this
      ensures Current() == ScheduledAt(old(Current()), at)
    {
      if scheduledAt.Some? && at >= scheduledAt.value {
        return;
      }
      scheduledAt := Some(at);
    }

    method RunNow(now: int, next: Option<int>)
      modifies this
      ensures Current() == RanAt(old(Current()), now, next)
    {
      scheduledAt := None;
      lastRun := Some(now);
      if next.Some? {
        var nextAt := next.value;
        if nextAt < now {
          nextAt := now;
        }
        ScheduleAt(nextAt);
      }
    }

    method OnTrigger(now: int, next: Option<int>) returns (ran: bool)
      requires triggered
      modifies this
      ensures ran == !TooEarly(old(Current()), interval, now)
      ensures Current() == Taken(old(Current()), interval, now, next)
    {
      triggered := false;
      if interval > 0 && lastRun.Some? {
        var allowedAt := lastRun.value + interval;
        if now < allowedAt {
          ScheduleAt(allowedAt);
          return false;
        }
      }
      RunNow(now, next);
      return true;
    }

    method OnTimer(now: int, next: Option<int>)
      requires scheduledAt.Some? && scheduledAt.value <= now
      modifies this
      ensures Current() == RanAt(old(Current()), now, next)
    {
      RunNow(now, next);
    }
  }

  /** The loop takes the waiting trigger. */
  function Taken(l: Loop, interval: int, now: int, next: Option<int>): Loop
  {
    var l' := l.(token := false);
    if TooEarly(l, interval, now) then ScheduledAt(l', l.lastRun.value + interval)
    else RanAt(l', now, next)
  }

  // ---------- runs ----------

  datatype Event = Signal | Take(now: int, next: Option<int>) | Fire(now: int, next: Option<int>)

  /** A started callback: when, and whether a trigger started it. */
  datatype Start = Start(at: int, byTrigger: bool)

  /** unserved: someone signalled after the last callback started; waiting: or after a signal was
      last taken from the channel. asked is when the last callback wanted to be called again, and
      early whether a trigger has come too early since it started. */
  datatype World = World(loop: Loop, starts: seq<Start>, unserved: bool, waiting: bool, asked: Option<int>, early: bool)

  predicate Possible(w: World, e: Event)
  {
    match e
    case Signal => true
    case Take(now, _) => w.loop.token
    case Fire(now, _) => w.loop.armed.Some? && w.loop.armed.value <= now
  }

  function Next(w: World, interval: int, e: Event): World
  {
    match e
    case Signal => w.(loop := w.loop.(token := true), unserved := true, waiting := true)
    case Take(now, next) =>
      var l := Taken(w.loop, interval, now, next);
      if TooEarly(w.loop, interval, now) then w.(loop := l, waiting := false, early := true)
      else World(l, w.starts + [Start(now, true)], false, false, next, false)
    case Fire(now, next) =>
      World(RanAt(w.loop, now, next), w.starts + [Start(now, false)], false, w.waiting, next, false)
  }

  function Initial(now: int, next: Option<int>): World
  {
    World(RanAt(Loop(None, None, false), now, next), [Start(now, false)], false, false, next, false)
  }

  predicate AllPossible(w: World, interval: int, events: seq<Event>)
    decreases |events|
  {
    events == [] || (Possible(w, events[0]) && AllPossible(Next(w, interval, events[0]), interval, events[1..]))
  }

  function Play(w: World, interval: int, events: seq<Event>): World
    decreases |events|
  {
    if events == [] then w else Play(Next(w, interval, events[0]), interval, events[1..])
  }

  /** A timer that will fire no later than one interval after the last run. */
  predicate ArmedInTime(l: Loop, interval: int)
  {
    l.lastRun.Some? && l.armed.Some? && l.armed.value <= l.lastRun.value + interval
  }

  /** Callbacks that a trigger starts keep their distance from the one before. */
  predicate Spaced(starts: seq<Start>, interval: int)
  {
    forall i :: 0 < i < |starts| && starts[i].byTrigger ==> starts[i].at >= starts[i - 1].at + interval
  }

  predicate Inv(w: World, interval: int)
  {
    && |w.starts| > 0
    && w.loop.lastRun == Some(w.starts[|w.starts| - 1].at)
    && (interval > 0 ==> Spaced(w.starts, interval))
    && (w.unserved ==> w.loop.token || ArmedInTime(w.loop, interval))
  }

  lemma NextKeepsInv(w: World, interval: int, e: Event)
    requires Inv(w, interval) && Possible(w, e)
    ensures Inv(Next(w, interval, e), interval)
  { }

  /** Between runs of the callback an armed timer never moves later. */
  lemma ArmedNeverMovesLater(w: World, interval: int, e: Event)
    requires w.loop.armed.Some? && Next(w, interval, e).starts == w.starts
    ensures Next(w, interval, e).loop.armed.Some?
    ensures Next(w, interval, e).loop.armed.value <= w.loop.armed.value
  { }

  lemma {:induction false} PlayKeepsInv(w: World, interval: int, events: seq<Event>)
    requires Inv(w, interval) && AllPossible(w, interval, events)
    ensures Inv(Play(w, interval, events), interval)
    decreases |events|
  {
    if events != [] {
      NextKeepsInv(w, interval, events[0]);
      PlayKeepsInv(Next(w, interval, events[0]), interval, events[1..]);
    }
  }

  /** Along every run: callbacks started by triggers are at least the interval apart from
      their predecessor, and no signal is lost: it waits in the channel, or the timer is armed
      within the interval, or a callback has started since. */
  lemma RunnerServesSignals(now: int, next: Option<int>, interval: int, events: seq<Event>)
    requires AllPossible(Initial(now, next), interval, events)
    ensures var w := Play(Initial(now, next), interval, events);
      (interval > 0 ==> Spaced(w.starts, interval))
      && (w.unserved ==> w.loop.token || ArmedInTime(w.loop, interval))
  {
    PlayKeepsInv(Initial(now, next), interval, events);
  }

  /** The timer's part of a run: while no callback starts, an armed time only decreases. */
  lemma {:induction false} ArmedOnlyAdvances(w: World, interval: int, events: seq<Event>)
    requires w.loop.armed.Some? && AllPossible(w, interval, events)
    requires |Play(w, interval, events).starts| == |w.starts|
    ensures Play(w, interval, events).loop.armed.Some?
    ensures Play(w, interval, events).loop.armed.value <= w.loop.armed.value
    decreases |events|
  {
    if events != [] {
      StartsGrow(Next(w, interval, events[0]), interval, events[1..]);
      ArmedNeverMovesLater(w, interval, events[0]);
      ArmedOnlyAdvances(Next(w, interval, events[0]), interval, events[1..]);
    }
  }

  lemma {:induction false} StartsGrow(w: World, interval: int, events: seq<Event>)
    ensures |w.starts| <= |Play(w, interval, events).starts|
    decreases |events|
  {
    if events != [] { StartsGrow(Next(w, interval, events[0]), interval, events[1..]); }
  }

  // ---------- when the timer is set ----------

  /** The earliest of what the last callback asked for, at the earliest its start, and, after a
      trigger that came too early, one interval after its start. */
  function Wanted(asked: Option<int>, early: bool, start: int, interval: int): Option<int>
  {
    var own := if asked.None? then None else Some(if asked.value < start then start else asked.value);
    if !early then own
    else if own.Some? && own.value <= start + interval then own
    else Some(start + interval)
  }

  ghost predicate TimerFits(w: World, interval: int)
  {
    && |w.starts| > 0
    && w.loop.lastRun == Some(w.starts[|w.starts| - 1].at)
    && (w.early ==> interval > 0)
    && w.loop.armed == Wanted(w.asked, w.early, w.starts[|w.starts| - 1].at, interval)
    && w.loop.token == w.waiting
  }

  lemma NextKeepsTimer(w: World, interval: int, e: Event)
    requires TimerFits(w, interval) && Possible(w, e)
    ensures TimerFits(Next(w, interval, e), interval)
  { }

  lemma {:induction false} PlayKeepsTimer(w: World, interval: int, events: seq<Event>)
    requires TimerFits(w, interval) && AllPossible(w, interval, events)
    ensures TimerFits(Play(w, interval, events), interval)
    decreases |events|
  {
    if events != [] {
      NextKeepsTimer(w, interval, events[0]);
      PlayKeepsTimer(Next(w, interval, events[0]), interval, events[1..]);
    }
  }

  /** Along every run, while no callback has started since the last one: the timer is armed no
      later than that one asked for, or at once if that has passed, and never before its start;
      if it asked for nothing and no trigger came too early nothing is armed; and a trigger that
      did is served one interval after it at the latest. A signal waits in the channel exactly if
      somebody signalled since one was last taken. */
  lemma TimerIsSetAsAsked(now: int, next: Option<int>, interval: int, events: seq<Event>)
    requires AllPossible(Initial(now, next), interval, events)
    ensures var w := Play(Initial(now, next), interval, events);
      && |w.starts| > 0
      && var start := w.starts[|w.starts| - 1].at;
        && (w.asked.Some? ==>
              w.loop.armed.Some? && w.loop.armed.value <= (if w.asked.value < start then start else w.asked.value))
        && (w.early ==> w.loop.armed.Some? && w.loop.armed.value <= start + interval)
        && (w.loop.armed.Some? ==>
              && start <= w.loop.armed.value
              && (w.asked.Some? || w.early)
              && (w.asked == Some(w.loop.armed.value) || w.loop.armed.value == start
                  || (w.early && w.loop.armed.value == start + interval)))
        && w.loop.armed == Wanted(w.asked, w.early, start, interval)
        && (w.loop.token <==> w.waiting)
  {
    PlayKeepsTimer(Initial(now, next), interval, events);
  }

  /** A trigger that is taken starts the callback exactly if there is no interval to keep or it is
      over since the last callback started. */
  lemma TakenTriggerStarts(now: int, next: Option<int>, interval: int, events: seq<Event>, at: int, asks: Option<int>)
    requires AllPossible(Initial(now, next), interval, events)
    ensures var w := Play(Initial(now, next), interval, events);
      && |w.starts| > 0
      && var start := w.starts[|w.starts| - 1].at;
        Next(w, interval, Take(at, asks)).starts ==
          if interval <= 0 || at >= start + interval then w.starts + [Start(at, true)] else w.starts
  {
    PlayKeepsTimer(Initial(now, next), interval, events);
  }

  /** What a step makes the world remember: asked is what the callback that started last returned,
      early a trigger taken without starting it, waiting a signal since one was last taken. */
  lemma WhatIsRemembered(w: World, interval: int, e: Event)
    ensures var w' := Next(w, interval, e);
      var started := w'.starts != w.starts;
      && w'.asked == (if started && !e.Signal? then e.next else w.asked)
      && w'.early == (!started && (e.Take? || w.early))
      && w'.waiting == (e.Signal? || (w.waiting && !e.Take?))
      && (started ==> !e.Signal? && w'.starts == w.starts + [Start(e.now, e.Take?)])
      && (e.Fire? ==> started)
  {
    assert forall s: Start :: |w.starts + [s]| != |w.starts|;
  }
}
