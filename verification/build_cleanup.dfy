/** Which finished builds a cleanup pass forgets, under a time to live, a job count limit and a
    byte limit. */
module BuildCleanup {
  import opened Wrappers
  import opened Sorting
  import BuildRunner

  type Id = string
  type Time = int

  /** A job as the pass sees it; finishedAt is None for the zero time. */
  datatype Snap = Snap(id: Id, status: BuildRunner.Status, createdAt: Time, finishedAt: Option<Time>, workDir: string)

  type Jobs = map<Id, Snap>

  /** Limits that are not positive are off. */
  datatype Limits = Limits(ttl: int, jobs: int, bytes: int)

  predicate Sooner(a: Option<Time>, b: Option<Time>)
  {
    b.Some? && (a.None? || a.value < b.value)
  }

  predicate Earlier(a: Snap, b: Snap)
  {
    if a.finishedAt == b.finishedAt then a.createdAt < b.createdAt else Sooner(a.finishedAt, b.finishedAt)
  }

  function OldestFirst(): (Snap, Snap) -> bool
  {
    (a: Snap, b: Snap) => !Earlier(b, a)
  }

  lemma OldestFirstIsTotal()
    ensures TotalPreorder(OldestFirst())
  { }

  predicate Expired(s: Snap, ttl: int, now: Time)
  {
    ttl > 0 && s.finishedAt.Some? && now - s.finishedAt.value > ttl
  }

  predicate WellFormed(jobs: Jobs)
  {
    forall id :: id in jobs ==> jobs[id].id == id
  }

  function Finished(jobs: Jobs): set<Id>
  {
    set id | id in jobs && BuildRunner.Terminal(jobs[id].status)
  }

  function Overdue(jobs: Jobs, ttl: int, now: Time): set<Id>
  {
    set id | id in jobs && BuildRunner.Terminal(jobs[id].status) && Expired(jobs[id], ttl, now)
  }

  // ---------- sizes ----------

  /** sizeOf measures a work directory on disk. */
  ghost function Bytes(jobs: Jobs, sizeOf: string -> nat, ids: set<Id>): nat
    requires ids <= jobs.Keys
  {
    if ids == {} then 0
    else
      var id :| id in ids;
      sizeOf(jobs[id].workDir) + Bytes(jobs, sizeOf, ids - {id})
  }

  lemma {:induction false} BytesWithout(jobs: Jobs, sizeOf: string -> nat, ids: set<Id>, x: Id)
    requires ids <= jobs.Keys && x in ids
    ensures Bytes(jobs, sizeOf, ids) == sizeOf(jobs[x].workDir) + Bytes(jobs, sizeOf, ids - {x})
    decreases |ids|
  {
    var id :| id in ids && Bytes(jobs, sizeOf, ids) == sizeOf(jobs[id].workDir) + Bytes(jobs, sizeOf, ids - {id});
    if id != x {
      BytesWithout(jobs, sizeOf, ids - {id}, x);
      BytesWithout(jobs, sizeOf, ids - {x}, id);
      assert ids - {id} - {x} == ids - {x} - {id};
    }
  }

  lemma {:induction false} BytesGrow(jobs: Jobs, sizeOf: string -> nat, small: set<Id>, big: set<Id>)
    requires small <= big <= jobs.Keys
    ensures Bytes(jobs, sizeOf, small) <= Bytes(jobs, sizeOf, big)
    decreases |big|
  {
    if small != big {
      var x :| x in big && x !in small;
      BytesWithout(jobs, sizeOf, big, x);
      BytesGrow(jobs, sizeOf, small, big - {x});
    }
  }

  // ---------- what a pass must remove ----------

  ghost predicate FitsLimits(jobs: Jobs, l: Limits, sizeOf: string -> nat, removed: set<Id>)
  {
    && (l.jobs > 0 ==> |jobs.Keys - removed| <= l.jobs)
    && (l.bytes > 0 ==> Bytes(jobs, sizeOf, Finished(jobs) - removed) <= l.bytes)
  }

  /** Only finished jobs go; all overdue ones do; the others go oldest first, until the limits
      are met or no finished job is left. */
  ghost predicate Acceptable(jobs: Jobs, l: Limits, now: Time, sizeOf: string -> nat, removed: set<Id>)
  {
    && Overdue(jobs, l.ttl, now) <= removed <= Finished(jobs)
    && (forall r, k :: r in removed && r !in Overdue(jobs, l.ttl, now) && k in Finished(jobs) && k !in removed ==>
          !Earlier(jobs[k], jobs[r]))
    && (FitsLimits(jobs, l, sizeOf, removed) || removed == Finished(jobs))
  }

  /** The last job to go: none of those that need not have gone is later, and the limits do not
      allow it to stay. */
  ghost predicate LastNeeded(jobs: Jobs, l: Limits, now: Time, sizeOf: string -> nat, removed: set<Id>, x: Id)
    requires removed <= jobs.Keys
  {
    && x in removed && x !in Overdue(jobs, l.ttl, now)
    && (forall r :: r in removed && r !in Overdue(jobs, l.ttl, now) ==> !Earlier(jobs[x], jobs[r]))
    && !FitsLimits(jobs, l, sizeOf, removed - {x})
  }

  ghost predicate Chosen(jobs: Jobs, l: Limits, now: Time, sizeOf: string -> nat, removed: set<Id>)
  {
    && Acceptable(jobs, l, now, sizeOf, removed)
    && (removed == Overdue(jobs, l.ttl, now) || exists x :: LastNeeded(jobs, l, now, sizeOf, removed, x))
  }

  /** What is left is at most the count limit, or only unfinished jobs. */
  lemma CountLimitHolds(jobs: Jobs, l: Limits, now: Time, sizeOf: string -> nat, removed: set<Id>)
    requires Acceptable(jobs, l, now, sizeOf, removed) && l.jobs > 0
    ensures || |jobs.Keys - removed| <= l.jobs
            || forall id :: id in jobs && id !in removed ==>
                jobs[id].status == BuildRunner.Queued || jobs[id].status == BuildRunner.Running
    ensures l.bytes > 0 ==> Bytes(jobs, sizeOf, Finished(jobs) - removed) <= l.bytes
  {
    if removed == Finished(jobs) {
      assert Finished(jobs) - removed == {};
    }
  }

  /** Overdue jobs, and only finished ones, go; a job that goes although it is not overdue finished
      no later than any finished job that stays, and of two that finished at the same time the one
      created first goes first. */
  lemma OldestJobsGo(jobs: Jobs, l: Limits, now: Time, sizeOf: string -> nat, removed: set<Id>)
    requires Acceptable(jobs, l, now, sizeOf, removed)
    ensures forall r :: r in removed ==>
      r in jobs && (jobs[r].status == BuildRunner.Success || jobs[r].status == BuildRunner.Failed)
    ensures forall k :: k in jobs && k !in removed && BuildRunner.Terminal(jobs[k].status) ==>
      l.ttl <= 0 || jobs[k].finishedAt.None? || now - jobs[k].finishedAt.value <= l.ttl
    ensures forall r, k ::
      && r in removed && (l.ttl <= 0 || jobs[r].finishedAt.None? || now - jobs[r].finishedAt.value <= l.ttl)
      && k in Finished(jobs) && k !in removed ==>
        && (jobs[r].finishedAt.None?
            || (jobs[k].finishedAt.Some? && jobs[r].finishedAt.value <= jobs[k].finishedAt.value))
        && (jobs[r].finishedAt == jobs[k].finishedAt ==> jobs[r].createdAt <= jobs[k].createdAt)
  {
    forall k | k in jobs && k !in removed && BuildRunner.Terminal(jobs[k].status)
      ensures l.ttl <= 0 || jobs[k].finishedAt.None? || now - jobs[k].finishedAt.value <= l.ttl
    {
      assert k !in Overdue(jobs, l.ttl, now);
    }
  }

  lemma KeepingOneMore(jobs: Jobs, sizeOf: string -> nat, removed: set<Id>, x: Id)
    requires x in removed && removed <= Finished(jobs)
    ensures |jobs.Keys - (removed - {x})| == |jobs.Keys - removed| + 1
    ensures Bytes(jobs, sizeOf, Finished(jobs) - (removed - {x}))
      == Bytes(jobs, sizeOf, Finished(jobs) - removed) + sizeOf(jobs[x].workDir)
  {
    assert jobs.Keys - (removed - {x}) == (jobs.Keys - removed) + {x};
    var more := Finished(jobs) - (removed - {x});
    assert more - {x} == Finished(jobs) - removed;
    BytesWithout(jobs, sizeOf, more, x);
  }

  /** With x kept as well, the count limit or the byte limit would be broken. */
  ghost predicate WouldNotFit(jobs: Jobs, l: Limits, sizeOf: string -> nat, removed: set<Id>, x: Id)
    requires x in removed && removed <= Finished(jobs)
  {
    || (l.jobs > 0 && |jobs.Keys - removed| + 1 > l.jobs)
    || (l.bytes > 0 && Bytes(jobs, sizeOf, Finished(jobs) - removed) + sizeOf(jobs[x].workDir) > l.bytes)
  }

  /** Nothing goes without need: if more than the overdue jobs go, the youngest of the others could
      not have stayed. */
  lemma OneMoreWouldNotFit(jobs: Jobs, l: Limits, now: Time, sizeOf: string -> nat, removed: set<Id>)
    requires Chosen(jobs, l, now, sizeOf, removed) && removed != Overdue(jobs, l.ttl, now)
    ensures exists x :: x in removed && x !in Overdue(jobs, l.ttl, now) && WouldNotFit(jobs, l, sizeOf, removed, x)
  {
    var x :| LastNeeded(jobs, l, now, sizeOf, removed, x);
    KeepingOneMore(jobs, sizeOf, removed, x);
    assert WouldNotFit(jobs, l, sizeOf, removed, x);
  }

  ghost predicate NoTies(jobs: Jobs)
  {
    forall a, b :: a in Finished(jobs) && b in Finished(jobs) && a != b ==>
      Earlier(jobs[a], jobs[b]) || Earlier(jobs[b], jobs[a])
  }

  lemma FitsWhenMoreGoes(jobs: Jobs, l: Limits, sizeOf: string -> nat, small: set<Id>, big: set<Id>)
    requires small <= big && FitsLimits(jobs, l, sizeOf, small)
    ensures FitsLimits(jobs, l, sizeOf, big)
  {
    SubsetSize(jobs.Keys - big, jobs.Keys - small);
    BytesGrow(jobs, sizeOf, Finished(jobs) - big, Finished(jobs) - small);
  }

  /** The choice is the least acceptable one: no acceptable pass removes less. */
  lemma ChoiceIsLeast(jobs: Jobs, l: Limits, now: Time, sizeOf: string -> nat, removed: set<Id>, other: set<Id>)
    requires NoTies(jobs)
    requires Chosen(jobs, l, now, sizeOf, removed) && Acceptable(jobs, l, now, sizeOf, other)
    ensures removed <= other
  {
    var overdue := Overdue(jobs, l.ttl, now);
    if y :| y in removed && y !in other {
      var x :| LastNeeded(jobs, l, now, sizeOf, removed, x);
      assert !Earlier(jobs[x], jobs[y]);
      assert x != y ==> Earlier(jobs[y], jobs[x]);
      assert x !in other;
      forall z | z in other ensures z in removed - {x} {
        if z !in overdue {
          assert !Earlier(jobs[x], jobs[z]);
        }
      }
      FitsWhenMoreGoes(jobs, l, sizeOf, other, removed - {x});
    }
  }

  lemma ChoiceIsUnique(jobs: Jobs, l: Limits, now: Time, sizeOf: string -> nat, a: set<Id>, b: set<Id>)
    requires NoTies(jobs) && Chosen(jobs, l, now, sizeOf, a) && Chosen(jobs, l, now, sizeOf, b)
    ensures a == b
  {
    ChoiceIsLeast(jobs, l, now, sizeOf, a, b);
    ChoiceIsLeast(jobs, l, now, sizeOf, b, a);
  }

  // ---------- the jobs of a list ----------

  /** The list holds the jobs named by ids, each once. */
  ghost predicate Lists(jobs: Jobs, s: seq<Snap>, ids: set<Id>)
  {
    && Distinct(s)
    && (forall x :: x in s ==> x.id in ids)
    && (forall id :: id in ids ==> id in jobs && jobs[id].id == id && jobs[id] in s)
    && (forall x :: x in s ==> x.id in jobs && jobs[x.id] == x)
  }

  lemma ListsPermuted(jobs: Jobs, s: seq<Snap>, t: seq<Snap>, ids: set<Id>)
    requires Lists(jobs, s, ids) && multiset(s) == multiset(t)
    ensures Lists(jobs, t, ids)
  {
    DistinctPermuted(s, t);
    forall x ensures x in s <==> x in t {
      assert x in multiset(s) <==> x in multiset(t);
    }
  }

  function Size(sizeOf: string -> nat): Snap -> nat
  {
    (s: Snap) => sizeOf(s.workDir)
  }

  lemma ListsTail(jobs: Jobs, s: seq<Snap>, ids: set<Id>)
    requires Lists(jobs, s, ids) && s != []
    ensures s[0].id in ids && Lists(jobs, s[1..], ids - {s[0].id})
  {
    forall id | id in ids - {s[0].id} ensures jobs[id] in s[1..] {
      var i :| 0 <= i < |s| && s[i] == jobs[id];
      assert s[i].id == id;
      assert i > 0;
    }
  }

  lemma {:induction false} SumIsBytes(jobs: Jobs, s: seq<Snap>, ids: set<Id>, sizeOf: string -> nat)
    requires Lists(jobs, s, ids) && ids <= jobs.Keys
    ensures Sum(s, Size(sizeOf)) == Bytes(jobs, sizeOf, ids)
    ensures |s| == |ids|
    decreases |s|
  {
    if s == [] {
      assert ids == {};
    } else {
      ListsTail(jobs, s, ids);
      BytesWithout(jobs, sizeOf, ids, s[0].id);
      SumIsBytes(jobs, s[1..], ids - {s[0].id}, sizeOf);
    }
  }

  /** The part of an oldest-first list that goes, and the part that stays. */
  ghost predicate OldestGo(gone: seq<Snap>, kept: seq<Snap>)
  {
    && (forall r, k :: r in gone && k in kept ==> !Earlier(k, r))
    && (forall r :: r in gone ==> !Earlier(gone[|gone| - 1], r))
  }

  lemma SortedSplit(s: seq<Snap>, n: nat)
    requires Sorted(s, OldestFirst()) && n <= |s|
    ensures OldestGo(s[..n], s[n..]) && s[..n] + s[n..] == s
  {
    assert s[..n] + s[n..] == s;
    forall r, k | r in s[..n] && k in s[n..] ensures !Earlier(k, r) {
      var i :| 0 <= i < n && s[i] == r;
      var j :| n <= j < |s| && s[j] == k;
      assert OldestFirst()(s[i], s[j]);
    }
    forall r | r in s[..n] ensures !Earlier(s[..n][n - 1], r) {
      var i :| 0 <= i < n && s[i] == r;
      if i < n - 1 { assert OldestFirst()(s[i], s[n - 1]); }
    }
  }

  method BuildRemovalsForByteLimit(snapshots: seq<Snap>, maxRetainedBytes: int, sizeOf: string -> nat)
    returns (removals: seq<Snap>, ghost kept: seq<Snap>)
    ensures multiset(removals + kept) == multiset(snapshots)
    ensures OldestGo(removals, kept)
    ensures maxRetainedBytes <= 0 ==> removals == []
    ensures maxRetainedBytes > 0 ==> Sum(kept, Size(sizeOf)) <= maxRetainedBytes
    ensures removals != [] ==>
      Sum(kept, Size(sizeOf)) + sizeOf(removals[|removals| - 1].workDir) > maxRetainedBytes
  {
    removals, kept := [], snapshots;
    assert removals + kept == snapshots;
    if maxRetainedBytes <= 0 || |snapshots| == 0 {
      return;
    }
    var totalBytes := 0;
    for i := 0 to |snapshots|
      invariant totalBytes == Sum(snapshots[..i], Size(sizeOf))
    {
      SumSplit(snapshots[..i], [snapshots[i]], Size(sizeOf));
      assert snapshots[..i + 1] == snapshots[..i] + [snapshots[i]];
      totalBytes := totalBytes + sizeOf(snapshots[i].workDir);
    }
    assert snapshots[..|snapshots|] == snapshots;
    if totalBytes <= maxRetainedBytes {
      return;
    }
    OldestFirstIsTotal();
    var withSizes := Sort(snapshots, OldestFirst());
    SumPermuted(snapshots, withSizes, Size(sizeOf));
    var n := 0;
    while n < |withSizes| && totalBytes > maxRetainedBytes
      invariant 0 <= n <= |withSizes|
      invariant removals == withSizes[..n]
      invariant totalBytes == Sum(withSizes[n..], Size(sizeOf))
      invariant n > 0 ==> totalBytes + sizeOf(withSizes[n - 1].workDir) > maxRetainedBytes
    {
      removals := removals + [withSizes[n]];
      totalBytes := totalBytes - sizeOf(withSizes[n].workDir);
      n := n + 1;
    }
    kept := withSizes[n..];
    SortedSplit(withSizes, n);
    assert removals + kept == withSizes;
  }

  function IdsOf(s: seq<Snap>): set<Id>
  {
    set x | x in s :: x.id
  }

  /** What to remove, with the work directory to delete for each job. */
  predicate Doomed(jobs: Jobs, removals: map<Id, string>, ids: set<Id>)
  {
    && removals.Keys == ids <= jobs.Keys
    && forall id :: id in ids ==> removals[id] == jobs[id].workDir
  }

  /** The first step: overdue jobs are removed, the other finished ones are candidates. */
  method SplitFinished(jobs: Jobs, ttl: int, now: Time)
    returns (removals: map<Id, string>, terminalJobs: seq<Snap>)
    requires WellFormed(jobs)
    ensures Doomed(jobs, removals, Overdue(jobs, ttl, now))
    ensures Lists(jobs, terminalJobs, Finished(jobs) - Overdue(jobs, ttl, now))
  {
    removals, terminalJobs := map[], [];
    var rest := jobs.Keys;
    while rest != {}
      invariant rest <= jobs.Keys
      invariant Doomed(jobs, removals, Overdue(jobs, ttl, now) - rest)
      invariant Lists(jobs, terminalJobs, Finished(jobs) - Overdue(jobs, ttl, now) - rest)
      decreases |rest|
    {
      var id :| id in rest;
      var snap := jobs[id];
      rest := rest - {id};
      if !BuildRunner.Terminal(snap.status) {
        continue;
      }
      if ttl > 0 && snap.finishedAt.Some? && now - snap.finishedAt.value > ttl {
        removals := removals[id := snap.workDir];
        continue;
      }
      assert snap !in terminalJobs;
      terminalJobs := terminalJobs + [snap];
    }
  }

  lemma ListsParts(jobs: Jobs, a: seq<Snap>, b: seq<Snap>, ids: set<Id>)
    requires Lists(jobs, a + b, ids)
    ensures Lists(jobs, a, IdsOf(a)) && Lists(jobs, b, IdsOf(b))
    ensures IdsOf(a) !! IdsOf(b) && IdsOf(a) + IdsOf(b) == ids
  {
    var s := a + b;
    assert forall i :: 0 <= i < |a| ==> s[i] == a[i];
    assert forall i :: 0 <= i < |b| ==> s[|a| + i] == b[i];
    forall x | x in a ensures x in s && x !in b { }
    forall x | x in b ensures x in s { }
    forall id | id in ids ensures id in IdsOf(a) + IdsOf(b) {
      assert jobs[id] in s && jobs[id].id == id;
    }
  }

  lemma ListsJoin(jobs: Jobs, a: seq<Snap>, b: seq<Snap>, ids: set<Id>, more: set<Id>)
    requires Lists(jobs, a, ids) && Lists(jobs, b, more) && ids !! more
    ensures Lists(jobs, a + b, ids + more)
  { }

  /** The listed jobs that are not to be removed. */
  method Survivors(jobs: Jobs, snapshots: seq<Snap>, removals: map<Id, string>, ghost ids: set<Id>)
    returns (kept: seq<Snap>)
    requires Lists(jobs, snapshots, ids)
    ensures Lists(jobs, kept, ids - removals.Keys)
  {
    kept := [];
    ghost var seen: set<Id> := {};
    for i := 0 to |snapshots|
      invariant seen == IdsOf(snapshots[..i])
      invariant Lists(jobs, kept, seen - removals.Keys)
    {
      var snap := snapshots[i];
      assert snapshots[..i + 1] == snapshots[..i] + [snap];
      assert snapshots == snapshots[..i + 1] + snapshots[i + 1..];
      ListsParts(jobs, snapshots[..i + 1], snapshots[i + 1..], ids);
      ListsParts(jobs, snapshots[..i], [snap], IdsOf(snapshots[..i + 1]));
      assert snap in [snap];
      seen := seen + {snap.id};
      if snap.id !in removals {
        ListsJoin(jobs, kept, [snap], seen - {snap.id} - removals.Keys, {snap.id});
        kept := kept + [snap];
      }
    }
    assert snapshots[..|snapshots|] == snapshots;
  }

  method SortOldestFirst(jobs: Jobs, s: seq<Snap>, ghost ids: set<Id>) returns (ordered: seq<Snap>)
    requires Lists(jobs, s, ids)
    ensures Lists(jobs, ordered, ids) && Sorted(ordered, OldestFirst())
  {
    OldestFirstIsTotal();
    ordered := Sort(s, OldestFirst());
    ListsPermuted(jobs, s, ordered, ids);
  }

  /** The second step: the oldest candidates go until the count limit is met. */
  method RemoveExtra(jobs: Jobs, maxRetainedJobs: int, overdue: map<Id, string>, terminalJobs: seq<Snap>,
        ghost ids: set<Id>)
    returns (removals: map<Id, string>, ghost gone: seq<Snap>, ghost rest: seq<Snap>)
    requires Doomed(jobs, overdue, overdue.Keys)
    requires Lists(jobs, terminalJobs, ids)
    ensures Lists(jobs, gone + rest, ids)
    ensures OldestGo(gone, rest)
    ensures var extra := |jobs| - |overdue| - maxRetainedJobs;
      |gone| == if maxRetainedJobs <= 0 || extra <= 0 then 0
                else if extra <= |gone| + |rest| then extra else |gone| + |rest|
    ensures Doomed(jobs, removals, overdue.Keys + IdsOf(gone))
  {
    removals, gone, rest := overdue, [], terminalJobs;
    var remainingJobs := |jobs| - |overdue|;
    assert gone + rest == terminalJobs;
    if maxRetainedJobs > 0 && remainingJobs > maxRetainedJobs {
      var ordered := SortOldestFirst(jobs, terminalJobs, ids);
      var extra := remainingJobs - maxRetainedJobs;
      var n;
      removals, n := RemoveFirst(jobs, extra, overdue, ordered, ids);
      SortedSplit(ordered, n);
      gone, rest := ordered[..n], ordered[n..];
    }
  }

  method RemoveFirst(jobs: Jobs, many: nat, overdue: map<Id, string>, ordered: seq<Snap>, ghost ids: set<Id>)
    returns (removals: map<Id, string>, n: nat)
    requires Doomed(jobs, overdue, overdue.Keys) && Lists(jobs, ordered, ids)
    ensures n == if many <= |ordered| then many else |ordered|
    ensures Doomed(jobs, removals, overdue.Keys + IdsOf(ordered[..n]))
  {
    removals, n := overdue, 0;
    var extra := many;
    while n < |ordered| && extra != 0
      invariant 0 <= n <= |ordered| && extra == many - n >= 0
      invariant Doomed(jobs, removals, overdue.Keys + IdsOf(ordered[..n]))
    {
      var snap := ordered[n];
      assert snap in ordered;
      assert ordered[..n + 1] == ordered[..n] + [snap];
      removals := removals[snap.id := snap.workDir];
      extra := extra - 1;
      n := n + 1;
    }
  }

  // ---------- the whole pass ----------

  ghost predicate DueFits(jobs: Jobs, ttl: int, kept: set<Id>, due: Option<Time>)
    requires kept <= jobs.Keys
  {
    match due
    case None => ttl <= 0 || forall id :: id in kept ==> jobs[id].finishedAt.None?
    case Some(t) =>
      && ttl > 0
      && (exists id :: id in kept && jobs[id].finishedAt == Some(t - ttl))
      && forall id :: id in kept && jobs[id].finishedAt.Some? ==> t <= jobs[id].finishedAt.value + ttl
  }

  /** The time to come back is when the first of the kept jobs is about to be overdue: none is up to
      that time and one is right after it; without a time none will ever be. */
  lemma DueIsWhenOneIsOverdue(jobs: Jobs, ttl: int, kept: set<Id>, due: Option<Time>, at: Time)
    requires kept <= Finished(jobs) && DueFits(jobs, ttl, kept, due)
    ensures Overdue(jobs, ttl, at) !! kept <==> due.None? || at <= due.value
  {
    if due.Some? {
      var id :| id in kept && jobs[id].finishedAt == Some(due.value - ttl);
      assert at > due.value ==> id in Overdue(jobs, ttl, at);
    }
  }

  method NextBuildCleanupDue(jobs: Jobs, snapshots: seq<Snap>, ttl: int, ghost ids: set<Id>)
    returns (nextDue: Option<Time>)
    requires Lists(jobs, snapshots, ids) && ids <= jobs.Keys
    ensures DueFits(jobs, ttl, ids, nextDue)
  {
    nextDue := None;
    if ttl <= 0 || |snapshots| == 0 {
      assert ttl <= 0 || ids == {};
      return;
    }
    for i := 0 to |snapshots|
      invariant nextDue.None? ==> forall k :: 0 <= k < i ==> snapshots[k].finishedAt.None?
      invariant nextDue.Some? ==> exists k :: 0 <= k < i && snapshots[k].finishedAt == Some(nextDue.value - ttl)
      invariant nextDue.Some? ==>
        forall k :: 0 <= k < i && snapshots[k].finishedAt.Some? ==> nextDue.value <= snapshots[k].finishedAt.value + ttl
    {
      var snap := snapshots[i];
      if snap.finishedAt.None? {
        continue;
      }
      var expireAt := snap.finishedAt.value + ttl;
      if nextDue.None? || expireAt < nextDue.value {
        nextDue := Some(expireAt);
      }
    }
    if nextDue.Some? {
      var k :| 0 <= k < |snapshots| && snapshots[k].finishedAt == Some(nextDue.value - ttl);
      assert snapshots[k] in snapshots && jobs[snapshots[k].id] == snapshots[k];
    }
  }

  /** How many jobs and bytes stay when the jobs of one list go and those of the other stay. */
  lemma WhatStays(jobs: Jobs, l: Limits, now: Time, sizeOf: string -> nat, gone: seq<Snap>, kept: seq<Snap>)
    requires Lists(jobs, gone + kept, Finished(jobs) - Overdue(jobs, l.ttl, now))
    ensures var removed := Overdue(jobs, l.ttl, now) + IdsOf(gone);
      && Finished(jobs) - removed == IdsOf(kept)
      && |jobs.Keys - removed| == |jobs| - |Overdue(jobs, l.ttl, now)| - |gone|
      && Bytes(jobs, sizeOf, Finished(jobs) - removed) == Sum(kept, Size(sizeOf))
  {
    var overdue := Overdue(jobs, l.ttl, now);
    ListsParts(jobs, gone, kept, Finished(jobs) - overdue);
    assert Finished(jobs) - (overdue + IdsOf(gone)) == IdsOf(kept);
    SumIsBytes(jobs, kept, IdsOf(kept), sizeOf);
    SumIsBytes(jobs, gone, IdsOf(gone), sizeOf);
    assert |overdue + IdsOf(gone)| == |overdue| + |gone|;
    assert |jobs.Keys - (overdue + IdsOf(gone))| == |jobs.Keys| - |overdue + IdsOf(gone)|;
  }

  lemma OneMore(before: seq<Snap>, last: Snap, overdue: set<Id>)
    requires last.id !in overdue && last.id !in IdsOf(before)
    ensures IdsOf(before + [last]) == IdsOf(before) + {last.id}
    ensures overdue + IdsOf(before + [last]) - {last.id} == overdue + IdsOf(before)
  {
    forall x | x in before ensures x in before + [last] { }
    assert last in before + [last];
    assert IdsOf(before + [last]) == IdsOf(before) + {last.id};
  }

  lemma LastIsNeeded(jobs: Jobs, l: Limits, now: Time, sizeOf: string -> nat, before: seq<Snap>, last: Snap,
        kept: seq<Snap>)
    requires Lists(jobs, before + ([last] + kept), Finished(jobs) - Overdue(jobs, l.ttl, now))
    requires forall r :: r in before ==> !Earlier(last, r)
    requires (l.jobs > 0 && |jobs| - |Overdue(jobs, l.ttl, now)| - |before| > l.jobs)
          || (l.bytes > 0 && Sum([last] + kept, Size(sizeOf)) > l.bytes)
    ensures LastNeeded(jobs, l, now, sizeOf, Overdue(jobs, l.ttl, now) + IdsOf(before + [last]), last.id)
  {
    var overdue := Overdue(jobs, l.ttl, now);
    WhatStays(jobs, l, now, sizeOf, before, [last] + kept);
    ListsParts(jobs, before, [last] + kept, Finished(jobs) - overdue);
    assert last in [last] + kept && last.id in IdsOf([last] + kept);
    OneMore(before, last, overdue);
    assert !FitsLimits(jobs, l, sizeOf, overdue + IdsOf(before));
    forall r | r in IdsOf(before) ensures !Earlier(jobs[last.id], jobs[r]) {
      var x :| x in before && x.id == r;
      assert jobs[r] == x && jobs[last.id] == last;
    }
  }

  /** finished are all jobs that may go, overdue those that must. */
  lemma OldestFirstByIds(jobs: Jobs, finished: set<Id>, overdue: set<Id>, gone: seq<Snap>, kept: seq<Snap>)
    requires Lists(jobs, gone + kept, finished - overdue) && overdue <= finished <= jobs.Keys
    requires forall r, k :: r in gone && k in kept ==> !Earlier(k, r)
    ensures overdue + IdsOf(gone) <= finished
    ensures forall r, k ::
      r in overdue + IdsOf(gone) && r !in overdue && k in finished && k !in overdue + IdsOf(gone) ==>
      !Earlier(jobs[k], jobs[r])
  {
    ListsParts(jobs, gone, kept, finished - overdue);
    forall r, k | r in IdsOf(gone) && k in finished && k !in overdue + IdsOf(gone) ensures !Earlier(jobs[k], jobs[r]) {
      assert k in IdsOf(kept);
      assert jobs[r] in gone && jobs[k] in kept;
    }
  }

  lemma LastIsNewest(byCount: seq<Snap>, byBytes: seq<Snap>, kept: seq<Snap>)
    requires OldestGo(byCount, byBytes + kept) && OldestGo(byBytes, kept)
    ensures var gone := byCount + byBytes; forall r :: r in gone ==> !Earlier(gone[|gone| - 1], r)
  {
    var gone := byCount + byBytes;
    if byBytes != [] {
      assert gone[|gone| - 1] == byBytes[|byBytes| - 1] && byBytes[|byBytes| - 1] in byBytes + kept;
    }
  }

  lemma GoneIsAcceptable(jobs: Jobs, l: Limits, now: Time, sizeOf: string -> nat, gone: seq<Snap>, kept: seq<Snap>)
    requires Lists(jobs, gone + kept, Finished(jobs) - Overdue(jobs, l.ttl, now))
    requires forall r, k :: r in gone && k in kept ==> !Earlier(k, r)
    requires kept == [] || l.jobs <= 0 || |jobs| - |Overdue(jobs, l.ttl, now)| - |gone| <= l.jobs
    requires l.bytes > 0 ==> Sum(kept, Size(sizeOf)) <= l.bytes
    ensures Acceptable(jobs, l, now, sizeOf, Overdue(jobs, l.ttl, now) + IdsOf(gone))
  {
    WhatStays(jobs, l, now, sizeOf, gone, kept);
    OldestFirstByIds(jobs, Finished(jobs), Overdue(jobs, l.ttl, now), gone, kept);
    assert kept == [] ==> IdsOf(kept) == {};
  }

  /** With extra jobs beyond the limit, so many go and so many stay. */
  predicate CountRemoves(extra: int, l: Limits, gone: nat, kept: nat)
  {
    gone == if l.jobs <= 0 || extra <= 0 then 0 else if extra <= gone + kept then extra else gone + kept
  }

  lemma SplitLast<T>(s: seq<T>, t: seq<T>)
    requires s != []
    ensures s == s[..|s| - 1] + [s[|s| - 1]]
    ensures s + t == s[..|s| - 1] + ([s[|s| - 1]] + t)
    ensures ([s[|s| - 1]] + t)[1..] == t
  { }

  /** What both limits together removed is the least that had to go. */
  lemma LimitsChoose(jobs: Jobs, l: Limits, now: Time, sizeOf: string -> nat, byCount: seq<Snap>, byBytes: seq<Snap>,
        kept: seq<Snap>)
    requires Lists(jobs, byCount + byBytes + kept, Finished(jobs) - Overdue(jobs, l.ttl, now))
    requires OldestGo(byCount, byBytes + kept) && OldestGo(byBytes, kept)
    requires CountRemoves(|jobs| - |Overdue(jobs, l.ttl, now)| - l.jobs, l, |byCount|, |byBytes| + |kept|)
    requires l.bytes <= 0 ==> byBytes == []
    requires l.bytes > 0 ==> Sum(kept, Size(sizeOf)) <= l.bytes
    requires byBytes != [] ==> Sum(kept, Size(sizeOf)) + sizeOf(byBytes[|byBytes| - 1].workDir) > l.bytes
    ensures Chosen(jobs, l, now, sizeOf, Overdue(jobs, l.ttl, now) + IdsOf(byCount + byBytes))
  {
    var gone := byCount + byBytes;
    forall r, k | r in gone && k in kept ensures !Earlier(k, r) {
      assert k in byBytes + kept;
    }
    GoneIsAcceptable(jobs, l, now, sizeOf, gone, kept);
    if gone == [] {
      assert Overdue(jobs, l.ttl, now) + IdsOf(gone) == Overdue(jobs, l.ttl, now);
    } else {
      var last := gone[|gone| - 1];
      var before := gone[..|gone| - 1];
      SplitLast(gone, kept);
      LastIsNewest(byCount, byBytes, kept);
      forall r | r in before ensures !Earlier(last, r) {
        assert r in gone;
      }
      LastIsNeeded(jobs, l, now, sizeOf, before, last, kept);
    }
  }

  /** The first critical section: the overdue jobs and those the count limit takes. */
  method ChooseByAge(jobs: Jobs, l: Limits, now: Time)
    returns (removals: map<Id, string>, candidates: seq<Snap>, ghost byCount: seq<Snap>)
    requires WellFormed(jobs)
    ensures var overdue := Overdue(jobs, l.ttl, now);
      && Doomed(jobs, removals, overdue + IdsOf(byCount))
      && Lists(jobs, byCount + candidates, Finished(jobs) - overdue)
      && CountRemoves(|jobs| - |overdue| - l.jobs, l, |byCount|, |candidates|)
    ensures OldestGo(byCount, candidates)
  {
    ghost var ids := Finished(jobs) - Overdue(jobs, l.ttl, now);
    var overdueJobs, terminalJobs := SplitFinished(jobs, l.ttl, now);
    ghost var rest;
    removals, byCount, rest := RemoveExtra(jobs, l.jobs, overdueJobs, terminalJobs, ids);
    ListsParts(jobs, byCount, rest, ids);
    candidates := Survivors(jobs, terminalJobs, removals, ids);
    WhatIsLeft(Finished(jobs), Overdue(jobs, l.ttl, now), IdsOf(byCount), IdsOf(rest));
    Regroup(jobs, byCount, rest, candidates, ids);
  }

  lemma WhatIsLeft(finished: set<Id>, overdue: set<Id>, gone: set<Id>, rest: set<Id>)
    requires gone !! rest && gone + rest == finished - overdue
    ensures finished - overdue - (overdue + gone) == rest
  { }

  /** The choice of the whole pass: what to remove, and when to come back. */
  method ChooseRemovals(jobs: Jobs, l: Limits, now: Time, sizeOf: string -> nat)
    returns (removals: map<Id, string>, nextDue: Option<Time>)
    requires WellFormed(jobs)
    ensures Doomed(jobs, removals, removals.Keys)
    ensures Chosen(jobs, l, now, sizeOf, removals.Keys)
    ensures DueFits(jobs, l.ttl, Finished(jobs) - removals.Keys, nextDue)
  {
    var candidates, byBytes;
    ghost var byCount, kept;
    removals, candidates, byCount := ChooseByAge(jobs, l, now);
    byBytes, kept := BuildRemovalsForByteLimit(candidates, l.bytes, sizeOf);
    SplitAgain(jobs, Finished(jobs), Overdue(jobs, l.ttl, now), byCount, candidates, byBytes, kept);
    LimitsChoose(jobs, l, now, sizeOf, byCount, byBytes, kept);
    removals := RemoveAll(jobs, removals, byBytes);
    var retained := Survivors(jobs, candidates, removals, IdsOf(candidates));
    nextDue := NextBuildCleanupDue(jobs, retained, l.ttl, Finished(jobs) - removals.Keys);
  }

  lemma IdsOfConcat(a: seq<Snap>, b: seq<Snap>)
    ensures IdsOf(a + b) == IdsOf(a) + IdsOf(b)
  {
    forall x ensures x in a + b <==> x in a || x in b { }
  }

  /** The byte limit splits what the count limit left. */
  lemma SplitAgain(jobs: Jobs, finished: set<Id>, overdue: set<Id>, byCount: seq<Snap>, candidates: seq<Snap>,
        byBytes: seq<Snap>, kept: seq<Snap>)
    requires Lists(jobs, byCount + candidates, finished - overdue) && OldestGo(byCount, candidates)
    requires multiset(byBytes + kept) == multiset(candidates)
    ensures Lists(jobs, byCount + byBytes + kept, finished - overdue) && OldestGo(byCount, byBytes + kept)
    ensures |byBytes| + |kept| == |candidates|
    ensures Lists(jobs, byBytes, IdsOf(byBytes)) && Lists(jobs, candidates, IdsOf(candidates))
    ensures overdue + IdsOf(byCount) + IdsOf(byBytes) == overdue + IdsOf(byCount + byBytes)
    ensures IdsOf(candidates) - (overdue + IdsOf(byCount) + IdsOf(byBytes))
        == finished - (overdue + IdsOf(byCount) + IdsOf(byBytes))
  {
    ListsParts(jobs, byCount, candidates, finished - overdue);
    ListsPermuted(jobs, candidates, byBytes + kept, IdsOf(candidates));
    ListsParts(jobs, byBytes, kept, IdsOf(candidates));
    Regroup(jobs, byCount, candidates, byBytes + kept, finished - overdue);
    assert byCount + byBytes + kept == byCount + (byBytes + kept);
    IdsOfConcat(byCount, byBytes);
  }

  method RemoveAll(jobs: Jobs, removals0: map<Id, string>, gone: seq<Snap>) returns (removals: map<Id, string>)
    requires Doomed(jobs, removals0, removals0.Keys) && Lists(jobs, gone, IdsOf(gone))
    ensures Doomed(jobs, removals, removals0.Keys + IdsOf(gone))
  {
    removals := removals0;
    for i := 0 to |gone|
      invariant Doomed(jobs, removals, removals0.Keys + IdsOf(gone[..i]))
    {
      assert gone[i] in gone;
      assert gone[..i + 1] == gone[..i] + [gone[i]];
      removals := removals[gone[i].id := gone[i].workDir];
    }
    assert gone[..|gone|] == gone;
  }

  lemma SameLength(jobs: Jobs, a: seq<Snap>, b: seq<Snap>, ids: set<Id>)
    requires Lists(jobs, a, ids) && Lists(jobs, b, ids)
    ensures |a| == |b|
  {
    var none: string -> nat := (d: string) => 0;
    SumIsBytes(jobs, a, ids, none);
    SumIsBytes(jobs, b, ids, none);
  }

  /** Another list of the same jobs can take the place of what stays. */
  lemma Regroup(jobs: Jobs, gone: seq<Snap>, rest: seq<Snap>, other: seq<Snap>, ids: set<Id>)
    requires Lists(jobs, gone + rest, ids) && OldestGo(gone, rest) && Lists(jobs, other, IdsOf(rest))
    ensures Lists(jobs, gone + other, ids) && OldestGo(gone, other) && |other| == |rest|
  {
    ListsParts(jobs, gone, rest, ids);
    ListsJoin(jobs, gone, other, IdsOf(gone), IdsOf(rest));
    SameLength(jobs, rest, other, IdsOf(rest));
    forall k | k in other ensures k in rest {
      assert jobs[k.id] == k;
    }
  }

  // ---------- the pass and everyone else ----------

  /** What other goroutines do to the table while the pass does not hold the mutex: jobs are
      added and go on, and a finished job stays finished. */
  predicate Evolved(before: Jobs, after: Jobs)
  {
    forall id :: id in before ==>
      id in after && (BuildRunner.Terminal(before[id].status) ==> after[id].status == before[id].status)
  }

  /** The table of a running service, whose jobs have these names. */
  ghost predicate TableOf(a: BuildRunner.Service, name: nat -> Id, jobs: Jobs)
  {
    && (forall i :: i in a.listed ==>
          i < |a.jobs| && name(i) in jobs && jobs[name(i)].status == a.jobs[i].status)
    && (forall id :: id in jobs ==> exists i :: i in a.listed && name(i) == id)
  }

  lemma {:induction false} ListedStays(a: BuildRunner.Service, workers: nat, events: seq<BuildRunner.Event>, i: nat)
    requires BuildRunner.AllPossible(a, workers, events) && i in a.listed
    requires forall k :: 0 <= k < |events| ==> !events[k].Discard?
    ensures i in BuildRunner.Play(a, workers, events).listed
    decreases |events|
  {
    if events != [] {
      ListedStays(BuildRunner.Next(a, workers, events[0]), workers, events[1..], i);
    }
  }

  /** That is what really happens: between the two critical sections of the only cleaner, any
      steps of starts and builds evolve the table in this way. */
  lemma BuildsEvolveTheTable(a: BuildRunner.Service, workers: nat, events: seq<BuildRunner.Event>, name: nat -> Id,
        before: Jobs, after: Jobs)
    requires BuildRunner.Inv(a, workers) && BuildRunner.AllPossible(a, workers, events)
    requires forall k :: 0 <= k < |events| ==> !events[k].Discard?
    requires TableOf(a, name, before) && TableOf(BuildRunner.Play(a, workers, events), name, after)
    ensures Evolved(before, after)
  {
    forall id | id in before
      ensures id in after && (BuildRunner.Terminal(before[id].status) ==> after[id].status == before[id].status)
    {
      var i :| i in a.listed && name(i) == id;
      ListedStays(a, workers, events, i);
      BuildRunner.StatusNeverGoesBack(a, workers, events, i);
    }
  }

  /** A pass over the table of a running service chooses what may be chosen there. */
  lemma PassIsPossible(a: BuildRunner.Service, workers: nat, name: nat -> Id, jobs: Jobs, l: Limits, now: Time,
        sizeOf: string -> nat, removed: set<Id>, victims: set<nat>)
    requires TableOf(a, name, jobs) && a.chosen == {} && Acceptable(jobs, l, now, sizeOf, removed)
    requires forall i :: i in victims ==> i in a.listed && name(i) in removed
    ensures BuildRunner.Possible(a, workers, BuildRunner.Choose(victims))
  {
    forall i | i in victims ensures i < |a.jobs| && BuildRunner.Terminal(a.jobs[i].status) {
      assert name(i) in Finished(jobs);
    }
  }

  predicate OnlyBuilds(events: seq<BuildRunner.Event>)
  {
    forall e :: e in events ==> e.StartBuild? || e.Advance?
  }

  lemma {:induction false} ChosenStays(a: BuildRunner.Service, workers: nat, events: seq<BuildRunner.Event>)
    requires BuildRunner.AllPossible(a, workers, events) && OnlyBuilds(events)
    ensures BuildRunner.Play(a, workers, events).chosen == a.chosen
    decreases |events|
  {
    if events != [] {
      assert events[0] in events && forall e :: e in events[1..] ==> e in events;
      ChosenStays(BuildRunner.Next(a, workers, events[0]), workers, events[1..]);
    }
  }

  /** No two jobs of a table share their name. */
  ghost predicate NamesDiffer(a: BuildRunner.Service, name: nat -> Id)
  {
    forall i, j :: i in a.listed && j in a.listed && name(i) == name(j) ==> i == j
  }

  /** Whatever is started and built between a pass's choice and its end, the table is then what it
      has become, without the jobs chosen. */
  lemma PassForgetsItsChoice(a: BuildRunner.Service, workers: nat, events: seq<BuildRunner.Event>, name: nat -> Id,
        before: Jobs, after: Jobs, removed: set<Id>, victims: set<nat>)
    requires TableOf(a, name, before) && a.chosen == victims && removed <= before.Keys
    requires forall i :: i in victims <==> i in a.listed && name(i) in removed
    requires BuildRunner.AllPossible(a, workers, events) && OnlyBuilds(events)
    requires var b := BuildRunner.Play(a, workers, events); TableOf(b, name, after) && NamesDiffer(b, name)
    ensures var b := BuildRunner.Play(a, workers, events);
      TableOf(BuildRunner.Next(b, workers, BuildRunner.Discard), name, after - removed)
  {
    var b := BuildRunner.Play(a, workers, events);
    var c := BuildRunner.Next(b, workers, BuildRunner.Discard);
    ChosenStays(a, workers, events);
    forall i | i in b.listed && name(i) in removed ensures i in victims {
      var j :| j in a.listed && name(j) == name(i);
      assert forall k :: 0 <= k < |events| ==> events[k] in events;
      ListedStays(a, workers, events, j);
    }
    forall id | id in after - removed ensures exists i :: i in c.listed && name(i) == id {
      var i :| i in b.listed && name(i) == id;
      assert i in c.listed;
    }
  }

  class BuildService {
    var jobs: Jobs
    const limits: Limits

    constructor (limits: Limits)
      ensures jobs == map[] && this.limits == limits
    {
      jobs := map[];
      this.limits := limits;
    }

    /** The second critical section. */
    method Discard(removals: map<Id, string>) returns (workDirs: seq<string>)
      modifies this
      ensures jobs == old(jobs) - removals.Keys
      ensures forall d :: d in workDirs <==> d != "" && exists id :: id in removals && removals[id] == d
    {
      workDirs := [];
      var rest := removals.Keys;
      while rest != {}
        invariant rest <= removals.Keys
        invariant jobs == old(jobs) - (removals.Keys - rest)
        invariant forall d :: d in workDirs <==> d != "" && exists id :: id in removals.Keys - rest && removals[id] == d
        decreases |rest|
      {
        var id :| id in rest;
        rest := rest - {id};
        jobs := jobs - {id};
        if removals[id] != "" {
          workDirs := workDirs + [removals[id]];
        }
      }
    }

    /** One pass; meanwhile is the table when the mutex is taken for the second time. */
    method CleanupJobs(now: Time, sizeOf: string -> nat, meanwhile: Jobs)
      returns (nextDue: Option<Time>, workDirs: seq<string>)
      requires WellFormed(jobs) && WellFormed(meanwhile) && Evolved(jobs, meanwhile)
      modifies this
      ensures WellFormed(jobs)
      ensures var removed := old(jobs).Keys - jobs.Keys;
        && jobs == meanwhile - removed
        && Chosen(old(jobs), limits, now, sizeOf, removed)
        && DueFits(old(jobs), limits.ttl, Finished(old(jobs)) - removed, nextDue)
        && forall d :: d in workDirs <==> d != "" && exists id :: id in removed && old(jobs)[id].workDir == d
      ensures forall id :: id in meanwhile && !BuildRunner.Terminal(meanwhile[id].status) ==>
        id in jobs && jobs[id] == meanwhile[id]
    {
      if |jobs| == 0 {
        jobs := meanwhile;
        return None, [];
      }
      var removals;
      removals, nextDue := ChooseRemovals(jobs, limits, now, sizeOf);
      jobs := meanwhile;
      workDirs := Discard(removals);
      RemovedKeys(old(jobs), meanwhile, removals.Keys);
    }
  }

  lemma RemovedKeys(before: Jobs, after: Jobs, removed: set<Id>)
    requires Evolved(before, after) && removed <= Finished(before)
    ensures before.Keys - (after - removed).Keys == removed
    ensures forall id :: id in after && !BuildRunner.Terminal(after[id].status) ==> id !in removed
  { }
}
