/** Leases on paths with expiry: who may hold one when. */
module Lease {
  import opened Wrappers
  import opened Paths

  type Client = string

  datatype LockInfo = LockInfo(owner: Client, expireAt: int)

  type Locks = map<Path, LockInfo>

  datatype Grant = Grant(ok: bool, owner: Client, expireAt: int)

  predicate Expired(info: LockInfo, now: int)
  {
    now > info.expireAt
  }

  function Ttl(ttl: int, fallback: int): int
  {
    if ttl <= 0 then fallback else ttl
  }

  /** A free or expired path is granted; anything else is refused, even to its own holder. */
  function Acquired(locks: Locks, p: Path, c: Client, ttl: int, now: int): (r: (Locks, Grant))
  {
    if p !in locks || Expired(locks[p], now)
    then (locks[p := LockInfo(c, now + ttl)], Grant(true, c, now + ttl))
    else (locks, Grant(false, locks[p].owner, locks[p].expireAt))
  }

  /** Only the holder renews, expired or not. */
  function Renewed(locks: Locks, p: Path, c: Client, ttl: int, now: int): (r: (Locks, bool))
  {
    if p in locks && locks[p].owner == c then (locks[p := LockInfo(c, now + ttl)], true) else (locks, false)
  }

  function Released(locks: Locks, p: Path, c: Client): (r: (Locks, bool))
  {
    if p in locks && locks[p].owner == c then (locks - {p}, true) else (locks, false)
  }

  function Swept(locks: Locks, now: int): Locks
  {
    map p | p in locks && !Expired(locks[p], now) :: locks[p]
  }

  class Manager {
    var locks: Locks
    const defaultTTL: int

    constructor (defaultTTL: int)
      ensures locks == map[] && this.defaultTTL == defaultTTL
    {
      locks := map[];
      this.defaultTTL := defaultTTL;
    }

    method Acquire(p: Path, c: Client, ttl: int, now: int) returns (g: Grant)
      modifies this
      ensures (locks, g) == Acquired(old(locks), p, c, Ttl(ttl, defaultTTL), now)
    {
      var t := ttl;
      if t <= 0 {
        t := defaultTTL;
      }
      if p !in locks || now > locks[p].expireAt {
        var exp := now + t;
        locks := locks[p := LockInfo(c, exp)];
        return Grant(true, c, exp);
      }
      return Grant(false, locks[p].owner, locks[p].expireAt);
    }

    method Renew(p: Path, c: Client, ttl: int, now: int) returns (ok: bool, expireAt: Option<int>)
      modifies this
      ensures (locks, ok) == Renewed(old(locks), p, c, Ttl(ttl, defaultTTL), now)
      ensures expireAt == if p in locks then Some(locks[p].expireAt) else None
    {
      if p !in locks {
        return false, None;
      }
      var info := locks[p];
      if info.owner != c {
        return false, Some(info.expireAt);
      }
      var t := ttl;
      if t <= 0 {
        t := defaultTTL;
      }
      info := info.(expireAt := now + t);
      locks := locks[p := info];
      return true, Some(info.expireAt);
    }

    method Release(p: Path, c: Client) returns (ok: bool)
      modifies this
      ensures (locks, ok) == Released(old(locks), p, c)
    {
      if p !in locks || locks[p].owner != c {
        return false;
      }
      locks := locks - {p};
      return true;
    }

    method CleanupExpired(now: int)
      modifies this
      ensures locks == Swept(old(locks), now)
    {
      var rest := locks.Keys;
      while rest != {}
        invariant rest <= old(locks).Keys && rest <= locks.Keys
        invariant forall p :: p in locks <==> p in old(locks) && (p in rest || !Expired(old(locks)[p], now))
        invariant forall p :: p in locks ==> locks[p] == old(locks)[p]
        decreases |rest|
      {
        var p :| p in rest;
        if now > locks[p].expireAt {
          locks := locks - {p};
        }
        rest := rest - {p};
      }
    }
  }

  // ---------- runs ----------

  datatype Event =
    | Acquire(path: Path, client: Client, ttl: int, now: int)
    | Renew(path: Path, client: Client, ttl: int, now: int)
    | Release(path: Path, client: Client, now: int)
    | Sweep(now: int)

  /** promised is what clients were told: the expiry of their last grant or renewal, until
      they release it themselves. */
  datatype World = World(locks: Locks, clock: int, promised: map<(Path, Client), int>)

  function Next(w: World, fallback: int, e: Event): World
  {
    match e
    case Acquire(p, c, ttl, now) =>
      var (locks, g) := Acquired(w.locks, p, c, Ttl(ttl, fallback), now);
      World(locks, now, if g.ok then w.promised[(p, c) := g.expireAt] else w.promised)
    case Renew(p, c, ttl, now) =>
      var (locks, ok) := Renewed(w.locks, p, c, Ttl(ttl, fallback), now);
      World(locks, now, if ok then w.promised[(p, c) := locks[p].expireAt] else w.promised)
    case Release(p, c, now) =>
      var (locks, ok) := Released(w.locks, p, c);
      World(locks, now, if ok then w.promised - {(p, c)} else w.promised)
    case Sweep(now) => World(Swept(w.locks, now), now, w.promised)
  }

  predicate Monotone(clock: int, events: seq<Event>)
    decreases |events|
  {
    events == [] || (clock <= events[0].now && Monotone(events[0].now, events[1..]))
  }

  function Play(w: World, fallback: int, events: seq<Event>): World
    decreases |events|
  {
    if events == [] then w else Play(Next(w, fallback, events[0]), fallback, events[1..])
  }

  /** A promise is backed by the table or has run out. */
  ghost predicate Honoured(w: World)
  {
    forall p, c :: (p, c) in w.promised ==>
      w.clock > w.promised[(p, c)] || (p in w.locks && w.locks[p] == LockInfo(c, w.promised[(p, c)]))
  }

  lemma NextHonours(w: World, fallback: int, e: Event)
    requires Honoured(w) && w.clock <= e.now
    ensures Honoured(Next(w, fallback, e))
  { }

  lemma {:induction false} PlayHonours(w: World, fallback: int, events: seq<Event>)
    requires Honoured(w) && Monotone(w.clock, events)
    ensures Honoured(Play(w, fallback, events))
    decreases |events|
  {
    if events != [] {
      NextHonours(w, fallback, events[0]);
      PlayHonours(Next(w, fallback, events[0]), fallback, events[1..]);
    }
  }

  /** Along every run with a clock that does not go back, two clients never both hold an
      unexpired promise for one path. */
  lemma LeasesExclude(events: seq<Event>, fallback: int, start: int, p: Path, c1: Client, c2: Client)
    requires Monotone(start, events) && c1 != c2
    ensures var w := Play(World(map[], start, map[]), fallback, events);
      (p, c1) in w.promised && (p, c2) in w.promised ==>
        w.clock > w.promised[(p, c1)] || w.clock > w.promised[(p, c2)]
  {
    PlayHonours(World(map[], start, map[]), fallback, events);
  }

  /** A lease passes to another client only after the first one's latest expiry, renewals
      included, or its own release. */
  lemma HandOverWaits(
      events: seq<Event>, fallback: int, start: int, p: Path, c: Client, ttl: int, now: int, other: Client)
    requires Monotone(start, events) && other != c
    ensures var w := Play(World(map[], start, map[]), fallback, events);
      w.clock <= now && (p, other) in w.promised && Acquired(w.locks, p, c, ttl, now).1.ok ==>
        now > w.promised[(p, other)]
  {
    PlayHonours(World(map[], start, map[]), fallback, events);
  }

  // ---------- how long a lease lasts ----------

  /** Nobody but the holder can end or extend its lease before it runs out. */
  predicate LeavesAlone(e: Event, p: Path, c: Client)
  {
    !((e.Renew? || e.Release?) && e.path == p && e.client == c)
  }

  predicate AllLeaveAlone(events: seq<Event>, p: Path, c: Client, until: int)
  {
    forall e :: e in events ==> LeavesAlone(e, p, c) && e.now <= until
  }

  lemma {:induction false} LeaseStands(w: World, fallback: int, events: seq<Event>, p: Path, c: Client, until: int)
    requires p in w.locks && w.locks[p] == LockInfo(c, until) && AllLeaveAlone(events, p, c, until)
    ensures var b := Play(w, fallback, events); p in b.locks && b.locks[p] == LockInfo(c, until)
    decreases |events|
  {
    if events != [] {
      assert events[0] in events;
      assert forall e :: e in events[1..] ==> e in events;
      LeaseStands(Next(w, fallback, events[0]), fallback, events[1..], p, c, until);
    }
  }

  /** The time a request asks for, or the configured one if it asks for none. */
  predicate LastsFor(ttl: int, fallback: int, lasts: int)
  {
    (ttl > 0 && lasts == ttl) || (ttl <= 0 && lasts == fallback)
  }

  /** A lease granted or renewed at a time lasts exactly as long as asked for from then on: until
      it is over, and its holder neither renews nor releases it, any other acquisition is refused
      with its holder and its expiry, and the first one after is granted. */
  lemma LeaseLasts(w: World, fallback: int, e: Event, lasts: int, events: seq<Event>, other: Client, ttl: int, at: int)
    requires (e.Acquire? || e.Renew?) && LastsFor(e.ttl, fallback, lasts)
    requires if e.Acquire? then e.path !in w.locks || w.locks[e.path].expireAt < e.now
             else e.path in w.locks && w.locks[e.path].owner == e.client
    requires AllLeaveAlone(events, e.path, e.client, e.now + lasts)
    ensures var b := Play(Next(w, fallback, e), fallback, events);
      var (locks, g) := Acquired(b.locks, e.path, other, ttl, at);
      && (e.path, e.client) in Next(w, fallback, e).promised
      && Next(w, fallback, e).promised[(e.path, e.client)] == e.now + lasts
      && (if at <= e.now + lasts then locks == b.locks && g == Grant(false, e.client, e.now + lasts)
          else g == Grant(true, other, at + ttl) && locks == b.locks[e.path := LockInfo(other, at + ttl)])
  {
    LeaseStands(Next(w, fallback, e), fallback, events, e.path, e.client, e.now + lasts);
  }

  /** A release by the holder frees the path at once, one by anybody else changes nothing; so does
      a renewal by anybody else. */
  lemma OnlyTheHolder(locks: Locks, p: Path, c: Client, other: Client, ttl: int, now: int)
    requires p in locks && locks[p].owner == c
    ensures Released(locks, p, c).1 && p !in Released(locks, p, c).0
    ensures Acquired(Released(locks, p, c).0, p, other, ttl, now).1 == Grant(true, other, now + ttl)
    ensures Released(locks, p, c).0 == locks - {p}
    ensures other != c ==>
      Released(locks, p, other) == (locks, false) && Renewed(locks, p, other, ttl, now) == (locks, false)
  { }

  /** A sweep leaves exactly the leases that have not run out. */
  lemma SweepLeavesTheRest(locks: Locks, now: int, p: Path)
    ensures p in Swept(locks, now) <==> p in locks && now <= locks[p].expireAt
    ensures p in Swept(locks, now) ==> Swept(locks, now)[p] == locks[p]
  { }
}
